/** The legacy helpers (`utils.js`): date-text checks, the day difference, text truncation,
    the positive-integer check on typed text, and the status-to-emoji and status-to-colour
    tables. */
module LegacyUtils {
  import opened Wrappers
  import opened Text
  import opened Dates
  import opened JsNumber
  import opened LegacyDatabase

  /** `isValidDateFormat`: the text matches `^\d{4}-\d{2}-\d{2}$` and names a real day. */
  predicate IsValidDateFormat(dateString: string)
    ensures IsValidDateFormat(dateString) ==> |dateString| == 10 && MatchesDatePattern(dateString)
    ensures IsValidDateFormat(dateString) <==> ParseDate(dateString).Some?
  {
    MatchesDatePattern(dateString) && ParseDate(dateString).Some?
  }

  /** `calculateDaysDifference`: whole days between the two dates, in either order; an
      invalid date makes the difference NaN (None). Both dates are read as UTC midnight, so
      the division by a day's milliseconds is exact. */
  function CalculateDaysDifference(startDate: string, endDate: string): (r: Option<nat>)
    ensures r.Some? <==> ParseDate(startDate).Some? && ParseDate(endDate).Some?
  {
    var start := ParseDate(startDate);
    var end := ParseDate(endDate);
    if start.Some? && end.Some? then
      var diff := DayNumber(end.value) - DayNumber(start.value);
      Some(if diff < 0 then -diff else diff)
    else None
  }

  /** The difference does not depend on the order of the arguments. */
  lemma DaysDifferenceSymmetric(a: string, b: string)
    ensures CalculateDaysDifference(a, b) == CalculateDaysDifference(b, a)
  {
  }

  /** A valid date is zero days from itself, and two different valid date texts are at least
      one day apart. */
  lemma DaysDifferenceZero(a: string, b: string)
    requires IsValidDateFormat(a) && IsValidDateFormat(b)
    ensures CalculateDaysDifference(a, b) == Some(0) <==> a == b
  {
    DateTextIsChronological(a, b);
  }

  /** For dates in text order the difference is the later day number minus the earlier. */
  lemma DaysDifferenceInOrder(a: string, b: string)
    requires IsValidDateFormat(a) && IsValidDateFormat(b) && LexLe(a, b)
    ensures CalculateDaysDifference(a, b) == Some(DayNumber(ParseDate(b).value) - DayNumber(ParseDate(a).value))
  {
    DateTextIsChronological(a, b);
  }

  const DefaultMaxLength: nat := 100

  /** `truncateText(text, maxLength)`. */
  function TruncateText(text: string, maxLength: nat := DefaultMaxLength): (r: string)
    ensures |text| <= maxLength ==> r == text
    ensures |text| > maxLength ==> |r| == maxLength + 3 && r[..maxLength] == text[..maxLength]
                                   && r[maxLength..] == "..."
  {
    if |text| <= maxLength then text else text[..maxLength] + "..."
  }

  /** `isPositiveInteger`: `Number(value)` is not NaN, is above zero and is whole. */
  predicate IsPositiveInteger(value: string) {
    var num := NumberOf(value);
    !num.NaN? && IsPositive(num) && IsInteger(num)
  }

  /** The check holds exactly when `Number(value)` is a whole number above zero. */
  lemma PositiveIntegerMeaning(value: string)
    ensures IsPositiveInteger(value) <==>
              IntegerValue(NumberOf(value)).Some? && IntegerValue(NumberOf(value)).value > 0
  {
  }

  /** Every positive whole number, written the usual way, passes the check. */
  lemma CanonicalTextIsPositiveInteger(n: nat)
    requires n > 0
    ensures IsPositiveInteger(NatToString(n))
    ensures IntegerValue(NumberOf(NatToString(n))) == Some(n)
  {
    NumberOfNatToString(n);
  }

  /** '0', '-3' and '2.5' do not pass. */
  lemma NotPositiveIntegers()
    ensures !IsPositiveInteger("0") && !IsPositiveInteger("-3") && !IsPositiveInteger("2.5")
  {
    assert NumberOf("0") == Finite(false, 0, 0) by {
      NumberOfNatToString(0);
      assert NatToString(0) == "0";
    }
    NumberOfMinusThree();
    NumberOfTwoAndAHalf();
    assert 25 % Pow10(1) != 0;
  }

  lemma NumberOfMinusThree()
    ensures NumberOf("-3") == Finite(true, 3, 0)
  {
    var s := "-3";
    assert TrimStart(s) == s && TrimEnd(s) == s;
    assert s[1..] == "3";
    DigitsAreDecimal(true, "3");
  }

  lemma NumberOfTwoAndAHalf()
    ensures NumberOf("2.5") == Finite(false, 25, -1)
  {
    var s := "2.5";
    assert TrimStart(s) == s && TrimEnd(s) == s;
    assert ExpMarker(s) == 3;
    assert s[..3] == s && IndexOf(s, '.') == 1;
    assert s[..1] == "2" && s[2..] == "5" && "2" + "5" == "25";
    assert RadixValue("25", 10) == 25 by { assert "25"[..1] == "2"; }
  }

  /** `statusToEmoji`: the table entry for the three statuses, '❓' for anything else. */
  function StatusToEmoji(status: string): (r: string)
    ensures status == PendingStatus ==> r == "⏳"
    ensures status == AcceptedStatus ==> r == "✅"
    ensures status == RejectedStatus ==> r == "❌"
    ensures status !in {PendingStatus, AcceptedStatus, RejectedStatus} ==> r == "❓"
  {
    var table := map[PendingStatus := "⏳", AcceptedStatus := "✅", RejectedStatus := "❌"];
    if status in table then table[status] else "❓"
  }

  /** `statusToColor`: the table entry for the three statuses, '#808080' for anything else. */
  function StatusToColor(status: string): (r: string)
    ensures status == PendingStatus ==> r == "#ffa500"
    ensures status == AcceptedStatus ==> r == "#00ff00"
    ensures status == RejectedStatus ==> r == "#ff0000"
    ensures status !in {PendingStatus, AcceptedStatus, RejectedStatus} ==> r == "#808080"
  {
    var table := map[PendingStatus := "#ffa500", AcceptedStatus := "#00ff00", RejectedStatus := "#ff0000"];
    if status in table then table[status] else "#808080"
  }

  /** The two tables tell the three statuses apart, and tell them from any other text. */
  lemma StatusTablesDistinguish(a: string, b: string)
    requires a in {PendingStatus, AcceptedStatus, RejectedStatus}
    ensures StatusToEmoji(a) == StatusToEmoji(b) <==> a == b
    ensures StatusToColor(a) == StatusToColor(b) <==> a == b
  {
  }
}
