/**
  The daily-winner panel: the countdown to the 22:00 UTC announcement and the
  polling that fetches the winner only during the selection minute. Days are
  24 hours long throughout.
*/
module DailyWinnerPanel {
  import opened Wrappers
  import Text
  import opened Records
  import opened SelectionTime

  /** `t` is the first 22:00:00.000 UTC strictly after `now`. */
  ghost predicate IsNextAnnouncement(now: int, t: int) {
    now < t <= now + DayMs && t % DayMs == 22 * HourMs
  }

  /**
    `updateCountdown`: the target starts as 22:00 UTC of the current day and is
    moved one day on from 22:00 on; then the hours and minutes left.
  */
  method Countdown(now: int) returns (target: int, hours: int, minutes: int, caption: string)
    ensures IsNextAnnouncement(now, target)
    ensures 0 <= hours <= 24 && 0 <= minutes < 60
    ensures hours == (target - now) / HourMs
    ensures hours * 60 + minutes == (target - now) / MinuteMs
    ensures caption == Text.IntToString(hours) + "h " + Text.IntToString(minutes) + "m"
  {
    var offset := now % DayMs;
    target := now - offset + 22 * HourMs;
    if UtcHour(now) >= 22 {
      target := target + DayMs;
    }
    var diff := target - now;
    assert 0 < diff <= DayMs by {
      assert offset == (offset / HourMs) * HourMs + offset % HourMs;
    }
    assert (target - 22 * HourMs) % DayMs == 0 by {
      var k := now / DayMs + (if UtcHour(now) >= 22 then 1 else 0);
      assert target - 22 * HourMs == k * DayMs;
    }
    hours := diff / HourMs;
    minutes := (diff % HourMs) / MinuteMs;
    assert hours * 60 + minutes == diff / MinuteMs by {
      var rest := diff % HourMs;
      assert diff == hours * HourMs + rest;
      assert rest == minutes * MinuteMs + rest % MinuteMs;
      assert diff == (hours * 60 + minutes) * MinuteMs + rest % MinuteMs;
    }
    caption := Text.IntToString(hours) + "h " + Text.IntToString(minutes) + "m";
  }

  /** There is only one next announcement, so the countdown's target is determined by `now`. */
  lemma NextAnnouncementUnique(now: int, t1: int, t2: int)
    requires IsNextAnnouncement(now, t1) && IsNextAnnouncement(now, t2)
    ensures t1 == t2
  {
    var q1 := t1 / DayMs;
    var q2 := t2 / DayMs;
    assert t1 == q1 * DayMs + 22 * HourMs;
    assert t2 == q2 * DayMs + 22 * HourMs;
    assert t1 - t2 == (q1 - q2) * DayMs;
  }

  /** What the fetch of /api/winners/daily yields: the parsed body, or a failure that is only logged. */
  datatype WinnerFetch = Body(winner: Option<Row>) | FetchFailed

  class WinnerPanel {
    var winner: Option<Row>
    var loading: bool
    var countdown: string

    constructor ()
      ensures winner == None && loading && countdown == ""
    {
      winner := None;
      loading := true;
      countdown := "";
    }

    /** The countdown effect, also run by its one-minute interval. */
    method UpdateCountdown(now: int)
      modifies this
      ensures exists target, hours, minutes ::
        (&& IsNextAnnouncement(now, target)
         && hours == (target - now) / HourMs && minutes == ((target - now) % HourMs) / MinuteMs
         && countdown == Text.IntToString(hours) + "h " + Text.IntToString(minutes) + "m")
      ensures winner == old(winner) && loading == old(loading)
    {
      var target, hours, minutes, caption := Countdown(now);
      countdown := caption;
    }

    /**
      `fetchWinner` at instant `now`: the winner is replaced only during the
      selection minute and when the body was read; `loading` ends either way.
    */
    method FetchWinner(now: int, response: WinnerFetch)
      modifies this
      ensures IsWinnerSelectionTime(now) && response.Body? ==> winner == response.winner
      ensures !(IsWinnerSelectionTime(now) && response.Body?) ==> winner == old(winner)
      ensures !loading && countdown == old(countdown)
    {
      if IsWinnerSelectionTime(now) {
        match response {
          case Body(w) => winner := w;
          case FetchFailed =>
        }
      }
      loading := false;
    }

    /** The polling interval: it calls `fetchWinner` only during the selection minute. */
    method Poll(now: int, response: WinnerFetch)
      modifies this
      ensures IsWinnerSelectionTime(now) && response.Body? ==> winner == response.winner
      ensures !(IsWinnerSelectionTime(now) && response.Body?) ==> winner == old(winner)
      ensures !IsWinnerSelectionTime(now) ==> loading == old(loading)
      ensures IsWinnerSelectionTime(now) ==> !loading
      ensures countdown == old(countdown)
    {
      if IsWinnerSelectionTime(now) {
        FetchWinner(now, response);
      }
    }

    /** `winner.imageUrl.split(',')`: never empty, and joins back to the stored string. */
    function Images(): (images: seq<string>)
      reads this
      requires winner.Some?
      ensures |images| >= 1
      ensures Text.Join(images, ',') == winner.value.post.imageUrl
    {
      Text.JoinSplit(winner.value.post.imageUrl, ',');
      Text.Split(winner.value.post.imageUrl, ',')
    }
  }
}
