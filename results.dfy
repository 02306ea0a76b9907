/**
 * The outcome of one call to the generator: a batch of ids, or the clock-rollback
 * diagnostic. The Java class has three nullable fields; here the two that may be
 * null are options.
 */
module Results {
  import opened Wrappers
  import Text

  datatype Status = Success | Exception

  datatype Result = Result(id: Option<seq<int>>, message: Option<string>, status: Status)

  const CLOCK_BACK_HEAD: string := "Current server system clock go back ! (current timestamp = "
  const CLOCK_BACK_MIDDLE: string := " last timestamp = "
  const CLOCK_BACK_TAIL: string := ")"

  /** The text `String.format` builds for a rollback, current timestamp first. */
  function ClockBackMessage(currentTimestamp: int, lastTimestamp: int): string {
    CLOCK_BACK_HEAD + Text.FormatDecimal(currentTimestamp) + CLOCK_BACK_MIDDLE
      + Text.FormatDecimal(lastTimestamp) + CLOCK_BACK_TAIL
  }

  /** `Result.id(list)`: a success carrying the list as given and no message. */
  function Id(ids: seq<int>): (r: Result)
    ensures r.status == Success && r.id == Some(ids) && r.message == None
  {
    Result(Some(ids), None, Success)
  }

  /** `Result.systemClockGoBack(current, last)`: an exception outcome with no id list. */
  function SystemClockGoBack(currentTimestamp: int, lastTimestamp: int): (r: Result)
    ensures r.status == Exception && r.id == None
    ensures r.message == Some(ClockBackMessage(currentTimestamp, lastTimestamp))
  {
    Result(None, Some(ClockBackMessage(currentTimestamp, lastTimestamp)), Exception)
  }

  /** Index of the first occurrence of c in s, or |s| when there is none. */
  function FirstIndex(s: string, c: char): (i: nat)
    ensures i <= |s| && (i < |s| ==> s[i] == c)
    ensures forall j :: 0 <= j < i ==> s[j] != c
  {
    if s == [] then 0 else if s[0] == c then 0 else 1 + FirstIndex(s[1..], c)
  }

  /**
   * Cuts m = head + x + middle + y + tail into x and y, where x ends at the first
   * occurrence of the character middle begins with.
   */
  function SplitAround(m: string, head: string, middle: string, tail: string): Option<(string, string)>
    requires |middle| > 0
  {
    var h, t := |head|, |tail|;
    if |m| < h + t || m[..h] != head || m[|m| - t..] != tail then None
    else
      var body := m[h..|m| - t];
      var i := FirstIndex(body, middle[0]);
      var rest := body[i..];
      if |rest| < |middle| || rest[..|middle|] != middle then None
      else Some((body[..i], rest[|middle|..]))
  }

  /** Cuts a rollback message into the texts of its two timestamps. */
  function SplitClockBackMessage(m: string): Option<(string, string)> {
    SplitAround(m, CLOCK_BACK_HEAD, CLOCK_BACK_MIDDLE, CLOCK_BACK_TAIL)
  }

  /** Reads the two timestamps back out of a rollback message. */
  function ParseClockBackMessage(m: string): Option<(int, int)> {
    match SplitClockBackMessage(m)
    case None => None
    case Some((c, l)) =>
      match (Text.ParseSigned(c), Text.ParseSigned(l))
      case (Some(c), Some(l)) => Some((c, l))
      case _ => None
  }

  /** The text around the two parts is found again, whatever the second part is. */
  lemma SplitAroundFrame(head: string, middle: string, tail: string, x: string, y: string)
    requires |middle| > 0 && middle[0] !in x
    ensures SplitAround(head + x + middle + y + tail, head, middle, tail) == Some((x, y))
  {
    var m := head + x + middle + y + tail;
    var h, t := |head|, |tail|;
    assert m == head + (x + middle + y) + tail;
    assert m[..h] == head;
    assert m[|m| - t..] == tail;
    var body := m[h..|m| - t];
    assert body == x + middle + y;
    var i := FirstIndex(body, middle[0]);
    assert body[|x|] == middle[0];
    assert forall j :: 0 <= j < |x| ==> body[j] == x[j];
    assert i == |x|;
    assert body[..i] == x;
    assert body[i..] == middle + y;
    assert body[i..][|middle|..] == y;
  }

  /**
   * The rollback message determines both timestamps, in the order current, last:
   * two different pairs never give the same text.
   */
  lemma ClockBackMessageRoundTrip(currentTimestamp: int, lastTimestamp: int)
    ensures ParseClockBackMessage(SystemClockGoBack(currentTimestamp, lastTimestamp).message.value)
            == Some((currentTimestamp, lastTimestamp))
  {
    Text.FormatDecimalChars(currentTimestamp, ' ');
    SplitAroundFrame(CLOCK_BACK_HEAD, CLOCK_BACK_MIDDLE, CLOCK_BACK_TAIL,
                     Text.FormatDecimal(currentTimestamp), Text.FormatDecimal(lastTimestamp));
    Text.FormatDecimalRoundTrip(currentTimestamp);
    Text.FormatDecimalRoundTrip(lastTimestamp);
  }
}
