/** Time-of-day ranges written as text. The matcher compares texts; this module says when that
    comparison means what the rule says. */
module TimeRange {
  import opened Wrappers

  type Minute = m: nat | m < 1440 witness 0

  // ---------------------------------------------------------------- text order

  /** Go's <= on strings, for texts of one byte per character. */
  predicate AtMost(a: string, b: string) {
    if a == [] then true
    else if b == [] then false
    else if a[0] != b[0] then a[0] < b[0]
    else AtMost(a[1..], b[1..])
  }

  /** The order is lexicographic: one text is a prefix of the other, or the first difference decides. */
  lemma {:induction false} AtMostIsLexicographic(a: string, b: string)
    ensures AtMost(a, b)
       <==> exists k :: 0 <= k <= |a| && k <= |b| && a[..k] == b[..k] && (k == |a| || (k < |b| && a[k] < b[k]))
  {
    if a == [] {
      assert a[..0] == b[..0];
    } else if b != [] && a[0] == b[0] {
      AtMostIsLexicographic(a[1..], b[1..]);
      if k :| 0 <= k <= |a| - 1 && k <= |b| - 1 && a[1..][..k] == b[1..][..k]
              && (k == |a| - 1 || (k < |b| - 1 && a[1..][k] < b[1..][k])) {
        assert a[..k + 1] == [a[0]] + a[1..][..k] && b[..k + 1] == [b[0]] + b[1..][..k];
      }
      if k :| 0 <= k <= |a| && k <= |b| && a[..k] == b[..k] && (k == |a| || (k < |b| && a[k] < b[k])) {
        assert k > 0;
        assert a[1..][..k - 1] == a[..k][1..] && b[1..][..k - 1] == b[..k][1..];
      }
    } else if b != [] {
      assert a[..0] == b[..0];
      assert forall k :: 0 < k <= |a| && k <= |b| ==> a[..k][0] == a[0] && b[..k][0] == b[0];
    }
  }

  function Digit(d: nat): char
    requires d < 10
  {
    (48 + d) as char
  }

  predicate IsDigit(c: char) {
    '0' <= c <= '9'
  }

  function DigitValue(c: char): (d: nat)
    requires IsDigit(c)
    ensures d < 10 && Digit(d) == c
  {
    c as int - 48
  }

  /** HH:MM, as the matcher formats the current time. */
  function Padded(m: Minute): string {
    [Digit(m / 600), Digit(m / 60 % 10), ':', Digit(m % 60 / 10), Digit(m % 10)]
  }

  /** H:MM, which the validator accepts as well. */
  function Unpadded(m: Minute): string
    requires m < 600
  {
    [Digit(m / 60), ':', Digit(m % 60 / 10), Digit(m % 10)]
  }

  // ---------------------------------------------------------------- what the validator accepts

  /** The two digits at a place, as a number below the limit. */
  function TwoDigits(s: string, at: nat, limit: nat): Option<nat> {
    if |s| >= at + 2 && IsDigit(s[at]) && IsDigit(s[at + 1])
       && 10 * DigitValue(s[at]) + DigitValue(s[at + 1]) < limit
    then Some(10 * DigitValue(s[at]) + DigitValue(s[at + 1]))
    else None
  }

  /** Go's time.Parse with layout 15:04: the hour takes one or two digits, the minute two. */
  function ParseTime(s: string): Option<Minute> {
    if |s| == 0 || !IsDigit(s[0]) then None
    else if |s| >= 2 && IsDigit(s[1]) then
      var hour, minute := TwoDigits(s, 0, 24), TwoDigits(s, 3, 60);
      if |s| == 5 && s[2] == ':' && hour.Some? && minute.Some?
      then Some(60 * hour.value + minute.value) else None
    else
      var minute := TwoDigits(s, 2, 60);
      if |s| == 4 && s[1] == ':' && minute.Some? then Some(60 * DigitValue(s[0]) + minute.value) else None
  }

  lemma PaddedDigits(h: nat, m: nat)
    requires h < 24 && m < 60
    ensures var t := 60 * h + m;
            t / 600 == h / 10 && t / 60 % 10 == h % 10 && t % 60 == m && t % 10 == m % 10 && t / 60 == h
  {
  }

  /** The formatted time reads back as hour and minute. */
  lemma PaddedReads(m: Minute)
    ensures |Padded(m)| == 5 && Padded(m)[2] == ':'
    ensures 600 * (Padded(m)[0] as int - '0' as int) + 60 * (Padded(m)[1] as int - '0' as int)
            + 10 * (Padded(m)[3] as int - '0' as int) + (Padded(m)[4] as int - '0' as int) == m
  {
    PaddedDigits(m / 60, m % 60);
  }

  lemma DigitsRead(d: nat)
    requires d < 10
    ensures IsDigit(Digit(d)) && DigitValue(Digit(d)) == d
  {
  }

  lemma SpellingsAccepted(m: Minute)
    ensures ParseTime(Padded(m)) == Some(m)
    ensures m < 600 ==> ParseTime(Unpadded(m)) == Some(m)
  {
    var h, n := m / 60, m % 60;
    PaddedDigits(h, n);
    DigitsRead(h / 10);
    DigitsRead(h % 10);
    DigitsRead(n / 10);
    DigitsRead(n % 10);
    assert TwoDigits(Padded(m), 0, 24) == Some(h);
    assert TwoDigits(Padded(m), 3, 60) == Some(n);
    if m < 600 {
      assert TwoDigits(Unpadded(m), 2, 60) == Some(n);
    }
    hide DigitValue, Digit, IsDigit, TwoDigits;
  }

  lemma SpelledOut(h1: nat, h0: nat, m1: nat, m0: nat)
    requires h0 < 10 && m1 < 6 && m0 < 10 && 10 * h1 + h0 < 24
    ensures var m := 60 * (10 * h1 + h0) + (10 * m1 + m0);
            && Padded(m) == [Digit(h1), Digit(h0), ':', Digit(m1), Digit(m0)]
            && (h1 == 0 ==> m < 600 && Unpadded(m) == [Digit(h0), ':', Digit(m1), Digit(m0)])
  {
    hide Digit;
    PaddedDigits(10 * h1 + h0, 10 * m1 + m0);
  }

  lemma OnlySpellingsAccepted(s: string)
    requires ParseTime(s).Some?
    ensures var m := ParseTime(s).value; s == Padded(m) || (m < 600 && s == Unpadded(m))
  {
    hide Padded, Unpadded;
    if |s| == 5 {
      SpelledOut(DigitValue(s[0]), DigitValue(s[1]), DigitValue(s[3]), DigitValue(s[4]));
      assert s == [s[0], s[1], s[2], s[3], s[4]];
    } else {
      SpelledOut(0, DigitValue(s[0]), DigitValue(s[2]), DigitValue(s[3]));
      assert s == [s[0], s[1], s[2], s[3]];
    }
  }

  /** The validator accepts exactly the two spellings of a minute of the day. */
  lemma ParseTimeAccepts(s: string, m: Minute)
    ensures ParseTime(s) == Some(m) <==> s == Padded(m) || (m < 600 && s == Unpadded(m))
  {
    SpellingsAccepted(m);
    if ParseTime(s) == Some(m) {
      OnlySpellingsAccepted(s);
    }
    hide ParseTime, Padded, Unpadded;
  }

  // ---------------------------------------------------------------- the comparison and its meaning

  /** The matcher's test on texts. */
  predicate WithinText(start: string, end: string, now: string) {
    if AtMost(start, end) then AtMost(start, now) && AtMost(now, end)
    else AtMost(start, now) || AtMost(now, end)
  }

  /** The cyclic interval of minutes a range stands for: from start onwards to end, both included. */
  predicate Within(start: Minute, end: Minute, m: Minute) {
    (m - start) % 1440 <= (end - start) % 1440
  }

  lemma WithinUnfolds(start: Minute, end: Minute, m: Minute)
    ensures Within(start, end, m)
       <==> if start <= end then start <= m <= end else start <= m || m <= end
  {
  }

  /** Texts as places on a line of 1000ths of a minute: an H:MM text falls just before the
      padded text of hour 10 * (H + 1). */
  function Place(padded: bool, m: Minute): int {
    if padded then 1000 * m else 600_000 * (m / 60 + 1) - 1000 + 1 + m % 60
  }

  function Spelling(padded: bool, m: Minute): string
    requires padded || m < 600
  {
    if padded then Padded(m) else Unpadded(m)
  }

  lemma AtMostFive(a: string, b: string)
    requires |a| <= 5
    ensures AtMost(a, b) ==
      (|a| == 0 || (|b| > 0 && (a[0] < b[0] || (a[0] == b[0] &&
      (|a| == 1 || (|b| > 1 && (a[1] < b[1] || (a[1] == b[1] &&
      (|a| == 2 || (|b| > 2 && (a[2] < b[2] || (a[2] == b[2] &&
      (|a| == 3 || (|b| > 3 && (a[3] < b[3] || (a[3] == b[3] &&
      (|a| == 4 || (|b| > 4 && (a[4] < b[4] || a[4] == b[4])))))))))))))))))))
  {
    if |a| > 0 && |b| > 0 && a[0] == b[0] {
      var a1, b1 := a[1..], b[1..];
      assert AtMost(a, b) == AtMost(a1, b1);
      if |a1| > 0 && |b1| > 0 && a1[0] == b1[0] {
        var a2, b2 := a1[1..], b1[1..];
        assert AtMost(a1, b1) == AtMost(a2, b2);
        if |a2| > 0 && |b2| > 0 && a2[0] == b2[0] {
          var a3, b3 := a2[1..], b2[1..];
          assert AtMost(a2, b2) == AtMost(a3, b3);
          if |a3| > 0 && |b3| > 0 && a3[0] == b3[0] {
            var a4, b4 := a3[1..], b3[1..];
            assert AtMost(a3, b3) == AtMost(a4, b4);
          }
        }
      }
    }
  }

  /** HH:MM and H:MM from their digits. */
  function Spelled(p: bool, h1: nat, h0: nat, m1: nat, m0: nat): string
    requires h1 < 10 && h0 < 10 && m1 < 10 && m0 < 10
  {
    if p then [Digit(h1), Digit(h0), ':', Digit(m1), Digit(m0)] else [Digit(h0), ':', Digit(m1), Digit(m0)]
  }

  lemma DigitOrder(p: bool, h1: nat, h0: nat, m1: nat, m0: nat, q: bool, k1: nat, k0: nat, n1: nat, n0: nat)
    requires h1 < 3 && h0 < 10 && m1 < 6 && m0 < 10 && (p || h1 == 0)
    requires k1 < 3 && k0 < 10 && n1 < 6 && n0 < 10 && (q || k1 == 0)
    ensures AtMost(Spelled(p, h1, h0, m1, m0), Spelled(q, k1, k0, n1, n0))
      == ((if p then 600_000 * h1 + 60_000 * h0 + 10_000 * m1 + 1000 * m0
           else 600_000 * (h0 + 1) - 999 + 10 * m1 + m0)
          <= (if q then 600_000 * k1 + 60_000 * k0 + 10_000 * n1 + 1000 * n0
              else 600_000 * (k0 + 1) - 999 + 10 * n1 + n0))
  {
    AtMostFive(Spelled(p, h1, h0, m1, m0), Spelled(q, k1, k0, n1, n0));
    hide AtMost;
  }

  lemma SpellingIs(p: bool, m: Minute)
    requires p || m < 600
    ensures var h, n := m / 60, m % 60;
            && Spelling(p, m) == Spelled(p, h / 10, h % 10, n / 10, n % 10)
            && h / 10 < 3 && n / 10 < 6 && (p || h / 10 == 0)
            && Place(p, m) == if p then 600_000 * (h / 10) + 60_000 * (h % 10) + 10_000 * (n / 10) + 1000 * (n % 10)
                              else 600_000 * (h % 10 + 1) - 999 + 10 * (n / 10) + n % 10
  {
    PaddedDigits(m / 60, m % 60);
  }

  /** Text order is the order of places, whatever the spellings. */
  lemma TextOrder(p: bool, a: Minute, q: bool, b: Minute)
    requires (p || a < 600) && (q || b < 600)
    ensures AtMost(Spelling(p, a), Spelling(q, b)) <==> Place(p, a) <= Place(q, b)
  {
    SpellingIs(p, a);
    SpellingIs(q, b);
    var h, m, k, n := a / 60, a % 60, b / 60, b % 60;
    DigitOrder(p, h / 10, h % 10, m / 10, m % 10, q, k / 10, k % 10, n / 10, n % 10);
    hide AtMost, Spelling, Spelled, Place;
  }

  function PlaceWithin(p: bool, start: Minute, q: bool, end: Minute, m: Minute): bool {
    if Place(p, start) <= Place(q, end) then Place(p, start) <= 1000 * m <= Place(q, end)
    else Place(p, start) <= 1000 * m || 1000 * m <= Place(q, end)
  }

  lemma TextIsPlace(p: bool, start: Minute, q: bool, end: Minute, m: Minute)
    requires (p || start < 600) && (q || end < 600)
    ensures WithinText(Spelling(p, start), Spelling(q, end), Padded(m)) == PlaceWithin(p, start, q, end, m)
  {
    TextOrder(p, start, q, end);
    TextOrder(p, start, true, m);
    TextOrder(true, m, q, end);
    hide AtMost;
  }

  /** The condition on the two texts under which comparing texts is comparing times. */
  predicate Faithful(p: bool, start: Minute, q: bool, end: Minute) {
    || (p && q)
    || (!p && !q && start == end + 1 && (start / 60 == end / 60 || end / 60 >= 2))
  }

  /** A minute on which the texts and the times disagree, when there is one. */
  function Witness(p: bool, start: Minute, q: bool, end: Minute): Minute {
    if p then
      if start > end && Place(p, start) < Place(q, end) then 0 else (end + 1) % 1440
    else if q then
      if Place(p, start) <= Place(q, end) || start > end then start
      else if start > 0 then 0 else 1439
    else if start <= end then start
    else if start / 60 == end / 60 || end / 60 >= 2 then end + 1
    else 600 * (end / 60 + 1)
  }

  lemma FaithfulAgrees(p: bool, start: Minute, q: bool, end: Minute, m: Minute)
    requires (p || start < 600) && (q || end < 600) && Faithful(p, start, q, end)
    ensures PlaceWithin(p, start, q, end, m) == Within(start, end, m)
  {
    WithinUnfolds(start, end, m);
    hide Within;
  }

  /** The place of an H:MM text lies past the minute after it, and on no minute. */
  lemma PlacePast(end: Minute, m: Minute)
    requires end < 600
    ensures 1000 * (end + 1) < Place(false, end) < 6_000_000 && Place(false, end) != 1000 * m
  {
    var h, n := end / 60, end % 60;
    assert end == 60 * h + n && h < 10 && n < 60;
    assert Place(false, end) == 1000 * (600 * h + 599) + 1 + n;
  }

  lemma PaddedStartWitness(start: Minute, end: Minute)
    requires end < 600
    ensures Witness(true, start, false, end) == if start > end && 1000 * start < Place(false, end) then 0 else end + 1
  {
    hide Place;
    assert Place(true, start) == 1000 * start by {
      PaddedPlace(start);
    }
  }

  lemma PaddedPlace(m: Minute)
    ensures Place(true, m) == 1000 * m
  {
  }

  lemma PaddedStartDisagrees(start: Minute, end: Minute)
    requires end < 600
    ensures var w := Witness(true, start, false, end);
            PlaceWithin(true, start, false, end, w) != Within(start, end, w)
  {
    hide Within, Witness, Place;
    PlacePast(end, start);
    PaddedPlace(start);
    PaddedStartWitness(start, end);
    WithinUnfolds(start, end, Witness(true, start, false, end));
  }

  lemma PaddedEndDisagrees(start: Minute, end: Minute)
    requires start < 600
    ensures var w := Witness(false, start, true, end);
            PlaceWithin(false, start, true, end, w) != Within(start, end, w)
  {
    var h := start / 60;
    assert start == 60 * h + start % 60 && h < 10;
    WithinUnfolds(start, end, Witness(false, start, true, end));
    hide Within;
  }

  lemma UnpaddedDisagrees(start: Minute, end: Minute)
    requires start < 600 && end < 600 && !Faithful(false, start, false, end)
    ensures var w := Witness(false, start, false, end);
            PlaceWithin(false, start, false, end, w) != Within(start, end, w)
  {
    var h, k := start / 60, end / 60;
    assert start == 60 * h + start % 60 && h < 10;
    assert end == 60 * k + end % 60 && k < 10;
    WithinUnfolds(start, end, Witness(false, start, false, end));
    hide Within;
  }

  lemma UnfaithfulDisagrees(p: bool, start: Minute, q: bool, end: Minute)
    requires (p || start < 600) && (q || end < 600) && !Faithful(p, start, q, end)
    ensures PlaceWithin(p, start, q, end, Witness(p, start, q, end)) != Within(start, end, Witness(p, start, q, end))
  {
    hide Within, PlaceWithin, Witness;
    if p {
      PaddedStartDisagrees(start, end);
    } else if q {
      PaddedEndDisagrees(start, end);
    } else {
      UnpaddedDisagrees(start, end);
    }
  }

  ghost predicate AlwaysAgree(start: string, end: string, s: Minute, e: Minute) {
    forall m: Minute :: WithinText(start, end, Padded(m)) == Within(s, e, m)
  }

  /** For every pair of texts the validator accepts: comparing texts gives the interval the range
      stands for at every minute of the day iff both are zero-padded, or both are not and the range
      happens to be the whole day in one of the spots where the gap is not visible. */
  lemma TextTestIsRightIff(start: string, end: string)
    requires ParseTime(start).Some? && ParseTime(end).Some?
    ensures var s, e := ParseTime(start).value, ParseTime(end).value;
            AlwaysAgree(start, end, s, e)
            <==> || (|start| == 5 && |end| == 5)
                 || (|start| == 4 && |end| == 4 && s == e + 1 && (s / 60 == e / 60 || e / 60 >= 2))
  {
    var s, e := ParseTime(start).value, ParseTime(end).value;
    ParseTimeAccepts(start, s);
    ParseTimeAccepts(end, e);
    var p, q := |start| == 5, |end| == 5;
    hide WithinText, Within, PlaceWithin, ParseTime;
    if Faithful(p, s, q, e) {
      forall m: Minute
        ensures WithinText(start, end, Padded(m)) == Within(s, e, m)
      {
        TextIsPlace(p, s, q, e, m);
        FaithfulAgrees(p, s, q, e, m);
      }
    } else {
      var m := Witness(p, s, q, e);
      TextIsPlace(p, s, q, e, m);
      UnfaithfulDisagrees(p, s, q, e);
    }
  }
}
