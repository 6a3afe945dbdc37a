/**
  The JavaScript string operations the application relies on: `split` and `join`
  with a one-character separator, `filter(Boolean)` on a list of strings,
  `includes`, and rendering an integer in a template literal.
*/
module Text {
  import opened Wrappers
  import Collections

  /** JavaScript truthiness of an optional string: null, undefined and "" are falsy. */
  predicate Present(s: Option<string>) {
    s.Some? && s.value != ""
  }

  /** `s.split(sep)`: the maximal separator-free pieces, in order; "" splits into [""]. */
  function Split(s: string, sep: char): (parts: seq<string>)
    ensures |parts| >= 1
    ensures forall i :: 0 <= i < |parts| ==> sep !in parts[i]
    ensures forall i, c :: 0 <= i < |parts| && c in parts[i] ==> c in s
    decreases |s|
  {
    if |s| == 0 then [""]
    else
      var rest := Split(s[1..], sep);
      assert forall c :: c in s[1..] ==> c in s;
      if s[0] == sep then [""] + rest
      else [[s[0]] + rest[0]] + rest[1..]
  }

  /** `parts.join(sep)`. */
  function Join(parts: seq<string>, sep: char): string
    decreases |parts|
  {
    if |parts| == 0 then ""
    else if |parts| == 1 then parts[0]
    else parts[0] + [sep] + Join(parts[1..], sep)
  }

  function Last(parts: seq<string>): string
    requires |parts| >= 1
  {
    parts[|parts| - 1]
  }

  /** Joining the pieces of a split gives back the original string. */
  lemma {:induction false} JoinSplit(s: string, sep: char)
    ensures Join(Split(s, sep), sep) == s
    decreases |s|
  {
    if |s| > 0 {
      var rest := Split(s[1..], sep);
      JoinSplit(s[1..], sep);
      if s[0] == sep {
        assert Split(s, sep) == [""] + rest;
        assert ([""] + rest)[1..] == rest;
        assert Join(Split(s, sep), sep) == "" + [sep] + Join(rest, sep);
        assert s == [s[0]] + s[1..];
      } else if |rest| == 1 {
        assert Split(s, sep) == [[s[0]] + rest[0]];
        assert s == [s[0]] + s[1..];
      } else {
        var parts := [[s[0]] + rest[0]] + rest[1..];
        assert Split(s, sep) == parts;
        assert parts[1..] == rest[1..];
        assert Join(parts, sep) == [s[0]] + rest[0] + [sep] + Join(rest[1..], sep);
        assert Join(rest, sep) == rest[0] + [sep] + Join(rest[1..], sep);
        assert s == [s[0]] + s[1..];
      }
    }
  }

  /** A separator-free prefix stays glued to the first piece of what follows it. */
  lemma {:induction false} SplitAppend(x: string, t: string, sep: char)
    requires sep !in x
    ensures Split(x + t, sep) == [x + Split(t, sep)[0]] + Split(t, sep)[1..]
    decreases |x|
  {
    if |x| > 0 {
      SplitAppend(x[1..], t, sep);
      var tp := Split(t, sep);
      var rest := Split(x[1..] + t, sep);
      assert rest == [x[1..] + tp[0]] + tp[1..];
      assert rest[0] == x[1..] + tp[0] && rest[1..] == tp[1..];
      assert (x + t)[0] == x[0];
      assert (x + t)[1..] == x[1..] + t;
      assert Split(x + t, sep) == [[x[0]] + rest[0]] + rest[1..];
      assert x == [x[0]] + x[1..];
      assert [x[0]] + rest[0] == x + tp[0];
    } else {
      assert x + t == t;
      var parts := Split(t, sep);
      assert x + parts[0] == parts[0];
      assert parts == [parts[0]] + parts[1..];
    }
  }

  /** A string without the separator splits into itself alone. */
  lemma SplitNoSeparator(x: string, sep: char)
    requires sep !in x
    ensures Split(x, sep) == [x]
  {
    SplitAppend(x, "", sep);
    assert x + "" == x;
  }

  /** Splitting a string that starts with the separator gives an empty first piece. */
  lemma SplitLeadingSeparator(t: string, sep: char)
    ensures Split([sep] + t, sep) == [""] + Split(t, sep)
  {
    assert ([sep] + t)[1..] == t;
  }

  /** Splitting a join recovers the pieces, as long as none of them holds the separator. */
  lemma {:induction false} SplitJoin(parts: seq<string>, sep: char)
    requires |parts| >= 1
    requires forall i :: 0 <= i < |parts| ==> sep !in parts[i]
    ensures Split(Join(parts, sep), sep) == parts
    decreases |parts|
  {
    if |parts| == 1 {
      SplitNoSeparator(parts[0], sep);
    } else {
      var tail := parts[1..];
      SplitJoin(tail, sep);
      var j := Join(tail, sep);
      assert Join(parts, sep) == parts[0] + ([sep] + j);
      SplitAppend(parts[0], [sep] + j, sep);
      SplitLeadingSeparator(j, sep);
      var split := Split([sep] + j, sep);
      assert split == [""] + tail;
      assert split[0] == "" && split[1..] == tail;
      assert parts[0] + "" == parts[0];
      assert parts == [parts[0]] + tail;
    }
  }

  /** `xs.filter(Boolean)` for strings: drop the empty ones, keep order. */
  function NonEmpty(xs: seq<string>): (r: seq<string>)
    ensures forall x :: x in r <==> x in xs && x != ""
    ensures |r| <= |xs|
  {
    Collections.Filter(xs, (x: string) => x != "")
  }

  /** The filter distributes over concatenation: it keeps every non-empty piece, repeats included, in order. */
  lemma NonEmptyAppend(a: seq<string>, b: seq<string>)
    ensures NonEmpty(a + b) == NonEmpty(a) + NonEmpty(b)
    ensures NonEmpty([]) == []
    ensures forall x :: NonEmpty([x]) == if x == "" then [] else [x]
  {
    Collections.FilterAppend(a, b, (x: string) => x != "");
  }

  /** Filtering a list that has no empty string changes nothing. */
  lemma NonEmptyKeepsAll(xs: seq<string>)
    requires "" !in xs
    ensures NonEmpty(xs) == xs
  {
    Collections.FilterKeepsAll(xs, (x: string) => x != "");
  }

  /** `sub` occurs in `s` starting at position `i`. */
  ghost predicate OccursAt(s: string, sub: string, i: int) {
    0 <= i && i + |sub| <= |s| && s[i..i + |sub|] == sub
  }

  /** `s.includes(sub)`, tried position by position. */
  function Contains(s: string, sub: string): (found: bool)
    ensures sub <= s ==> found
    ensures found ==> |sub| <= |s|
    decreases |s|
  {
    if sub <= s then true
    else if |s| == 0 then false
    else Contains(s[1..], sub)
  }

  /** `Contains` holds exactly when `sub` occurs somewhere in `s` (case-sensitive). */
  lemma {:induction false} ContainsIff(s: string, sub: string)
    ensures Contains(s, sub) <==> exists i :: OccursAt(s, sub, i)
    decreases |s|
  {
    if sub <= s {
      assert s[0..|sub|] == sub;
      assert OccursAt(s, sub, 0);
    } else if |s| == 0 {
    } else {
      ContainsIff(s[1..], sub);
      if Contains(s[1..], sub) {
        var i :| OccursAt(s[1..], sub, i);
        assert s[1..][i..i + |sub|] == s[i + 1..i + 1 + |sub|];
        assert OccursAt(s, sub, i + 1);
      }
      if exists i :: OccursAt(s, sub, i) {
        var i :| OccursAt(s, sub, i);
        assert i != 0;
        assert s[1..][i - 1..i - 1 + |sub|] == s[i..i + |sub|];
        assert OccursAt(s[1..], sub, i - 1);
      }
    }
  }

  function DigitChar(d: nat): char
    requires d < 10
  {
    ('0' as int + d) as char
  }

  predicate IsDigit(c: char) {
    '0' <= c <= '9'
  }

  function DigitValue(c: char): nat
    requires IsDigit(c)
  {
    c as int - '0' as int
  }

  /** The decimal rendering of a natural number, as `${n}` prints it. */
  function NatToString(n: nat): (r: string)
    ensures |r| >= 1
    ensures forall i :: 0 <= i < |r| ==> IsDigit(r[i])
    ensures r[0] == '0' ==> n == 0
    decreases n
  {
    if n < 10 then [DigitChar(n)]
    else NatToString(n / 10) + [DigitChar(n % 10)]
  }

  /** The decimal rendering of an integer, with a leading '-' when it is negative. */
  function IntToString(i: int): (r: string)
    ensures |r| >= 1
    ensures i >= 0 ==> r == NatToString(i)
    ensures i < 0 ==> r[0] == '-'
  {
    if i < 0 then "-" + NatToString(-i) else NatToString(i)
  }

  /** The number a string of decimal digits denotes. */
  function ParseNat(s: string): nat
    requires forall i :: 0 <= i < |s| ==> IsDigit(s[i])
  {
    if |s| == 0 then 0
    else 10 * ParseNat(s[..|s| - 1]) + DigitValue(s[|s| - 1])
  }

  /** Reading back the rendering of `n` gives `n`. */
  lemma {:induction false} ParseNatToString(n: nat)
    ensures ParseNat(NatToString(n)) == n
    decreases n
  {
    if n >= 10 {
      ParseNatToString(n / 10);
      var s := NatToString(n);
      assert s[..|s| - 1] == NatToString(n / 10);
    }
  }
}
