/** Timecode parsing: "hh:mm:ss" or "mm:ss" to a number of seconds, with 0
    for anything malformed. */
module Timecode {
  import opened Wrappers
  import opened Decimal

  /** The pieces of `s` between colons, as `s.split(':')`: never empty, and
      one more piece than there are colons. */
  function Split(s: string): (parts: seq<string>)
    ensures |parts| >= 1
    ensures forall i :: 0 <= i < |parts| ==> ':' !in parts[i]
    ensures Join(parts) == s
  {
    if s == [] then [[]]
    else
      var rest := Split(s[1..]);
      if s[0] == ':' then [[]] + rest
      else
        assert Join([[s[0]] + rest[0]] + rest[1..]) == [s[0]] + Join(rest) by {
          if |rest| > 1 {
            assert ([[s[0]] + rest[0]] + rest[1..])[1..] == rest[1..];
          }
        }
        [[s[0]] + rest[0]] + rest[1..]
  }

  /** The pieces glued back together with colons. */
  function Join(parts: seq<string>): string
    requires |parts| >= 1
  {
    if |parts| == 1 then parts[0] else parts[0] + [':'] + Join(parts[1..])
  }

  /** Splitting undoes joining when no piece holds a colon. */
  lemma {:induction false} SplitJoin(parts: seq<string>)
    requires |parts| >= 1
    requires forall i :: 0 <= i < |parts| ==> ':' !in parts[i]
    ensures Split(Join(parts)) == parts
  {
    if |parts| == 1 {
      SplitNoColon(parts[0]);
    } else {
      SplitJoin(parts[1..]);
      SplitPrefix(parts[0], Join(parts[1..]));
      assert parts == [parts[0]] + parts[1..];
    }
  }

  lemma {:induction false} SplitNoColon(p: string)
    requires ':' !in p
    ensures Split(p) == [p]
  {
    if p != [] {
      SplitNoColon(p[1..]);
    }
  }

  /** A colon-free piece followed by a colon becomes one more first piece. */
  lemma {:induction false} SplitPrefix(p: string, tail: string)
    requires ':' !in p
    ensures Split(p + [':'] + tail) == [p] + Split(tail)
  {
    if p == [] {
      assert p + [':'] + tail == [':'] + tail;
      assert ([':'] + tail)[1..] == tail;
    } else {
      assert (p + [':'] + tail)[1..] == p[1..] + [':'] + tail;
      SplitPrefix(p[1..], tail);
      assert [p[0]] + p[1..] == p;
    }
  }

  /** `Number(part)` for a piece of a timecode: a digit string (the empty
      string included) has its decimal value, anything else is NaN. */
  function PartValue(part: string): (v: Option<nat>)
    ensures v.Some? <==> IsDigits(part)
  {
    if IsDigits(part) then Some(ValueOf(part)) else None
  }

  /** `parts.map(Number)`. */
  function Numbers(parts: seq<string>): (ns: seq<Option<nat>>)
    ensures |ns| == |parts|
    ensures forall k :: 0 <= k < |parts| ==> ns[k] == PartValue(parts[k])
  {
    seq(|parts|, k requires 0 <= k < |parts| => PartValue(parts[k]))
  }

  /** `ns.some(isNaN)`. */
  predicate SomeNaN(ns: seq<Option<nat>>) {
    exists k :: 0 <= k < |ns| && ns[k].None?
  }

  predicate AllNumeric(parts: seq<string>) {
    forall i :: 0 <= i < |parts| ==> IsDigits(parts[i])
  }

  /** `timeStringToSeconds`: three numeric pieces are hours, minutes and
      seconds; two are minutes and seconds; any NaN piece or any other number
      of pieces gives 0. */
  function TimeStringToSeconds(t: string): (secs: nat)
    ensures !AllNumeric(Split(t)) ==> secs == 0
    ensures |Split(t)| != 2 && |Split(t)| != 3 ==> secs == 0
  {
    var parts := Numbers(Split(t));
    if SomeNaN(parts) then 0
    else if |parts| == 3 then parts[0].value * 3600 + parts[1].value * 60 + parts[2].value
    else if |parts| == 2 then parts[0].value * 60 + parts[1].value
    else 0
  }

  /** "h:m:s" with digit strings is h hours, m minutes and s seconds. */
  lemma HoursMinutesSeconds(h: string, m: string, s: string)
    requires IsDigits(h) && IsDigits(m) && IsDigits(s)
    ensures TimeStringToSeconds(h + ":" + m + ":" + s) == ValueOf(h) * 3600 + ValueOf(m) * 60 + ValueOf(s)
  {
    JoinThree(h, m, s);
    DigitsHaveNoColon(h);
    DigitsHaveNoColon(m);
    DigitsHaveNoColon(s);
    SplitJoin([h, m, s]);
    ThreePieces(h + ":" + m + ":" + s, h, m, s);
  }

  lemma JoinThree(h: string, m: string, s: string)
    ensures Join([h, m, s]) == h + ":" + m + ":" + s
  {
    assert [h, m, s][1..] == [m, s];
    assert [m, s][1..] == [s];
    assert Join([m, s]) == m + ":" + s;
  }

  lemma ThreePieces(t: string, h: string, m: string, s: string)
    requires IsDigits(h) && IsDigits(m) && IsDigits(s)
    requires Split(t) == [h, m, s]
    ensures TimeStringToSeconds(t) == ValueOf(h) * 3600 + ValueOf(m) * 60 + ValueOf(s)
  {
    var ns := Numbers(Split(t));
    assert ns[0] == Some(ValueOf(h)) && ns[1] == Some(ValueOf(m)) && ns[2] == Some(ValueOf(s));
    assert !SomeNaN(ns);
  }

  lemma TwoPieces(t: string, m: string, s: string)
    requires IsDigits(m) && IsDigits(s)
    requires Split(t) == [m, s]
    ensures TimeStringToSeconds(t) == ValueOf(m) * 60 + ValueOf(s)
  {
    var ns := Numbers(Split(t));
    assert ns[0] == Some(ValueOf(m)) && ns[1] == Some(ValueOf(s));
    assert !SomeNaN(ns);
  }

  lemma DigitsHaveNoColon(p: string)
    requires IsDigits(p)
    ensures ':' !in p
  {
  }

  /** "m:s" with digit strings is m minutes and s seconds. */
  lemma MinutesSeconds(m: string, s: string)
    requires IsDigits(m) && IsDigits(s)
    ensures TimeStringToSeconds(m + ":" + s) == ValueOf(m) * 60 + ValueOf(s)
  {
    assert Join([m, s]) == m + ":" + s by {
      assert [m, s][1..] == [s];
    }
    DigitsHaveNoColon(m);
    DigitsHaveNoColon(s);
    SplitJoin([m, s]);
    TwoPieces(m + ":" + s, m, s);
  }

  /** Writing hours, minutes and seconds in decimal and parsing them back
      gives the total number of seconds. */
  lemma WrittenTimecodeRoundTrip(h: nat, m: nat, s: nat)
    ensures TimeStringToSeconds(ToString(h) + ":" + ToString(m) + ":" + ToString(s)) == h * 3600 + m * 60 + s
  {
    HoursMinutesSeconds(ToString(h), ToString(m), ToString(s));
    ValueOfToString(h);
    ValueOfToString(m);
    ValueOfToString(s);
  }
}
