/**
  The full-screen image viewer: cyclic previous/next navigation over the
  post's images, jumping to an image by its dot, and the download file name.
*/
module ImageLightbox {
  import Text

  /** The `next` updater: the last image wraps around to the first. */
  function NextIndex(i: int, n: int): (j: int)
    ensures 0 <= i < n ==> 0 <= j < n
  {
    if i == n - 1 then 0 else i + 1
  }

  /** The `prev` updater: the first image wraps around to the last. */
  function PrevIndex(i: int, n: int): (j: int)
    ensures 0 <= i < n ==> 0 <= j < n
  {
    if i == 0 then n - 1 else i - 1
  }

  /** Going forward then back, or back then forward, returns to the same image. */
  lemma NextPrevInverse(i: int, n: int)
    requires 0 <= i < n
    ensures PrevIndex(NextIndex(i, n), n) == i
    ensures NextIndex(PrevIndex(i, n), n) == i
  {
  }

  /** The index after `k` presses of "next". */
  function Advance(i: int, n: int, k: nat): int
    decreases k
  {
    if k == 0 then i else Advance(NextIndex(i, n), n, k - 1)
  }

  lemma {:induction false} AdvanceCompose(i: int, n: int, a: nat, b: nat)
    ensures Advance(i, n, a + b) == Advance(Advance(i, n, a), n, b)
    decreases a
  {
    if a > 0 {
      AdvanceCompose(NextIndex(i, n), n, a - 1, b);
    }
  }

  /** Before the wrap-around, `k` presses move `k` images forward. */
  lemma {:induction false} AdvanceNoWrap(i: int, n: int, k: nat)
    requires 0 <= i && i + k < n
    ensures Advance(i, n, k) == i + k
    decreases k
  {
    if k > 0 {
      AdvanceNoWrap(i + 1, n, k - 1);
    }
  }

  /** Pressing "next" once per image brings the viewer back to where it started. */
  lemma FullCycle(i: int, n: int)
    requires 0 <= i < n
    ensures Advance(i, n, n) == i
  {
    AdvanceNoWrap(i, n, n - 1 - i);
    assert Advance(i, n, n - i) == Advance(Advance(i, n, n - 1 - i), n, 1) by {
      AdvanceCompose(i, n, n - 1 - i, 1);
    }
    assert Advance(i, n, n - i) == 0;
    AdvanceCompose(i, n, n - i, i);
    AdvanceNoWrap(0, n, i);
  }

  /** `iftar-image-${index + 1}.jpg`. */
  function DownloadFileName(index: int): (name: string)
    ensures |name| > 16
    ensures name[..12] == "iftar-image-" && name[|name| - 4..] == ".jpg"
  {
    "iftar-image-" + Text.IntToString(index + 1) + ".jpg"
  }

  /** The download name carries the 1-based position of the image being shown. */
  lemma DownloadNameNumbersFromOne(index: nat)
    ensures var name := DownloadFileName(index);
      && |name| > 16
      && name[..12] == "iftar-image-"
      && name[|name| - 4..] == ".jpg"
      && (forall i :: 12 <= i < |name| - 4 ==> Text.IsDigit(name[i]))
      && Text.ParseNat(name[12..|name| - 4]) == index + 1
  {
    var digits := Text.NatToString(index + 1);
    var name := DownloadFileName(index);
    assert name == "iftar-image-" + digits + ".jpg";
    assert name[12..|name| - 4] == digits;
    Text.ParseNatToString(index + 1);
  }

  /** The viewer's state: the images it was opened on and the one on screen. */
  class Lightbox {
    const images: seq<string>
    var current: int

    constructor (images: seq<string>, initialIndex: int)
      ensures this.images == images && current == initialIndex
    {
      this.images := images;
      current := initialIndex;
    }

    method Next()
      modifies this
      ensures current == NextIndex(old(current), |images|)
      ensures 0 <= old(current) < |images| ==> 0 <= current < |images|
    {
      current := NextIndex(current, |images|);
    }

    method Prev()
      modifies this
      ensures current == PrevIndex(old(current), |images|)
      ensures 0 <= old(current) < |images| ==> 0 <= current < |images|
    {
      current := PrevIndex(current, |images|);
    }

    /** A click on the dot of image `index`. */
    method Select(index: int)
      modifies this
      ensures current == index
    {
      current := index;
    }

    function DownloadName(): string
      reads this
    {
      DownloadFileName(current)
    }
  }
}
