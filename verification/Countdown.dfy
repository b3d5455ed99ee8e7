/** The expiry countdown of apps/admin/lib/use-expiry-countdown.ts: an anchored timer, and the label it shows. */
module Countdown {
  import opened JsText
  import opened Decimals

  /** What both clocks say at one moment, in milliseconds; only the first is sure never to go back. */
  datatype Clock = Clock(mono: real, wall: real)

  datatype Anchor = Anchor(remaining: real, mono: real)
  datatype Timer = Timer(measured: Option<real>, ticking: bool)

  function Anchored(expiresAt: real, serverNow: Option<real>, at: Clock): Anchor {
    Anchor(expiresAt - (if serverNow.Some? then serverNow.value else at.wall), at.mono)
  }

  function Read(a: Anchor, mono: real): real {
    var left := a.remaining - (mono - a.mono);
    if left <= 0.0 then 0.0 else left
  }

  function Pumped(a: Anchor, t: Timer, at: Clock): Timer {
    Timer(Some(Read(a, at.mono)), t.ticking && Read(a, at.mono) > 0.0)
  }

  /** What a tick due now does: the first measurement always runs, a later tick only if the interval stands. */
  function Fire(a: Anchor, t: Timer, at: Clock): Timer {
    if t.measured.Some? && !t.ticking then t else Pumped(a, t, at)
  }

  class Countdown {
    const anchor: Anchor
    var timer: Timer

    constructor (expiresAt: real, serverNow: Option<real>, at: Clock)
      ensures anchor == Anchored(expiresAt, serverNow, at) && timer == Timer(None, true)
    {
      anchor := Anchored(expiresAt, serverNow, at);
      timer := Timer(None, true);
    }

    /** The time shown and the time passed add up to the time there was, until none is left; then ticking ends. */
    method Pump(at: Clock)
      modifies this
      ensures timer == Pumped(anchor, old(timer), at)
      ensures timer.measured.Some? && timer.measured.value >= 0.0
      ensures timer.measured.value > 0.0 ==> timer.measured.value + (at.mono - anchor.mono) == anchor.remaining
      ensures timer.measured.value == 0.0 <==> at.mono - anchor.mono >= anchor.remaining
      ensures timer.ticking <==> old(timer.ticking) && at.mono - anchor.mono < anchor.remaining
    {
      var next := Read(anchor, at.mono);
      timer := timer.(measured := Some(next));
      if next <= 0.0 { timer := timer.(ticking := false); }
    }
  }

  function Run(a: Anchor, times: seq<Clock>): Timer {
    if times == [] then Timer(None, true) else Fire(a, Run(a, times[..|times| - 1]), times[|times| - 1])
  }

  predicate Forward(a: Anchor, times: seq<Clock>) {
    && (forall i :: 0 <= i < |times| ==> a.mono <= times[i].mono)
    && (forall i, j :: 0 <= i < j < |times| ==> times[i].mono <= times[j].mono)
  }

  /**
   Whatever ticks are late or missed, and wherever the wall clock jumps, the reading is the one the anchor
   gives for the last moment a tick was due, even if the interval was cleared long before; and it has been
   cleared exactly when that reading is zero.
  */
  lemma {:induction false} RunReads(a: Anchor, times: seq<Clock>)
    requires Forward(a, times) && times != []
    ensures var last := Read(a, times[|times| - 1].mono);
            Run(a, times) == Timer(Some(last), last > 0.0)
  {
    var init := times[..|times| - 1];
    if init == [] {
      assert Run(a, init) == Timer(None, true);
    } else {
      RunReads(a, init);
      assert init[|init| - 1].mono <= times[|times| - 1].mono;
    }
  }

  /** Later readings are never larger, and each is at most the time passed since below an earlier one. */
  lemma RunNeverRises(a: Anchor, times: seq<Clock>, more: seq<Clock>)
    requires Forward(a, times + more) && times != [] && more != []
    ensures var before, after := Run(a, times).measured.value, Run(a, times + more).measured.value;
            && after <= before
            && before - after <= more[|more| - 1].mono - times[|times| - 1].mono
            && (before == 0.0 ==> Run(a, times + more) == Run(a, times))
  {
    var all := times + more;
    assert forall i :: 0 <= i < |times| ==> all[i] == times[i];
    assert all[|all| - 1] == more[|more| - 1] && all[|times| - 1] == times[|times| - 1];
    RunReads(a, times);
    RunReads(a, all);
  }

  /**
   The timer is out exactly when the clock it was anchored on has reached the deadline: the server's, if its reading
   came with the deadline, and else the device's own.
  */
  lemma ExpiresOnTime(expiresAt: real, serverNow: Option<real>, at: Clock, times: seq<Clock>)
    requires Forward(Anchored(expiresAt, serverNow, at), times) && times != []
    ensures var timer := Run(Anchored(expiresAt, serverNow, at), times);
            var passed := times[|times| - 1].mono - at.mono;
            timer.measured == Some(0.0) <==>
            (match serverNow case Some(now) => now + passed >= expiresAt case None => at.wall + passed >= expiresAt)
  {
    RunReads(Anchored(expiresAt, serverNow, at), times);
  }

  const ZERO: Unit := 0x30
  const SPACE: Unit := 0x20
  const M: Unit := 0x6D
  const S: Unit := 0x73

  function PadTwo(s: Text): Text { if |s| == 0 then [ZERO, ZERO] else if |s| == 1 then [ZERO] + s else s }

  function WholeSeconds(ms: real): nat {
    var floor := (ms / 1000.0).Floor;
    if floor < 0 then 0 else floor
  }

  function FormatRemaining(ms: real): Text {
    var total := WholeSeconds(ms);
    var minutes := total / 60;
    var seconds := total % 60;
    if minutes <= 0 then Decimal(seconds) + [S]
    else Decimal(minutes) + [M, SPACE] + PadTwo(Decimal(seconds)) + [S]
  }

  /** A reader of labels: the digits in front, then what the letter after them says. */
  function Digits(s: Text): (d: Text)
    ensures |d| <= |s| && d == s[..|d|] && AllDigits(d)
  {
    if s != [] && IsDigit(s[0]) then [s[0]] + Digits(s[1..]) else []
  }

  /** Seconds alone, or minutes and then exactly two digits of seconds below 60; no other number has a zero in front. */
  function ReadLabel(text: Text): Option<nat> {
    var front := Digits(text);
    var rest := text[|front|..];
    if front == [] || (|front| > 1 && front[0] == ZERO) then None
    else if rest == [S] then Some(DecimalValue(front))
    else if
      && front != [ZERO] && |rest| == 5 && rest[0] == M && rest[1] == SPACE && rest[4] == S
      && AllDigits(rest[2..4]) && DecimalValue(rest[2..4]) < 60
    then
      Some(60 * DecimalValue(front) + DecimalValue(rest[2..4]))
    else None
  }

  lemma {:induction false} DigitsInFront(d: Text, rest: Text)
    requires AllDigits(d) && rest != [] && !IsDigit(rest[0])
    ensures Digits(d + rest) == d
  {
    if d != [] {
      assert (d + rest)[1..] == d[1..] + rest;
      DigitsInFront(d[1..], rest);
    } else {
      assert d + rest == rest;
    }
  }

  lemma TwoDigits(n: nat)
    requires n < 60
    ensures var d := PadTwo(Decimal(n)); |d| == 2 && AllDigits(d) && DecimalValue(d) == n
  {
    DecimalIs(n);
    var d := PadTwo(Decimal(n));
    assert Decimal(n / 10) == [(0x30 + n / 10 % 10) as Unit];
    assert DecimalValue([]) == 0;
    assert d[..1] == [(0x30 + n / 10) as Unit] && d[..1][..0] == [];
  }

  lemma WholeSecondsMean(ms: real)
    ensures if ms < 1000.0 then WholeSeconds(ms) == 0
            else WholeSeconds(ms) as real * 1000.0 <= ms < (WholeSeconds(ms) + 1) as real * 1000.0
  {
  }

  lemma DecimalFront(n: nat)
    ensures Decimal(n) != [] && (|Decimal(n)| > 1 ==> Decimal(n)[0] != ZERO) && (n > 0 ==> Decimal(n) != [ZERO])
  {
    DecimalIs(n);
    if n == 0 { assert Decimal(0) == [ZERO]; }
  }

  /** A label says exactly how many whole seconds are left, none once the time is out. */
  lemma LabelDecodes(ms: real)
    ensures var seconds := ReadLabel(FormatRemaining(ms));
            && seconds.Some?
            && if ms < 1000.0 then seconds.value == 0
               else seconds.value as real * 1000.0 <= ms < (seconds.value + 1) as real * 1000.0
    ensures ReadLabel(FormatRemaining(ms)) == Some(WholeSeconds(ms))
  {
    WholeSecondsMean(ms);
    hide WholeSeconds, Decimal, DecimalValue, AllDigits, Digits, PadTwo;
    var total := WholeSeconds(ms);
    var front := Decimal(if total < 60 then total else total / 60);
    DecimalIs(if total < 60 then total else total / 60);
    DecimalFront(if total < 60 then total else total / 60);
    if total < 60 {
      DigitsInFront(front, [S]);
    } else {
      TwoDigits(total % 60);
      var tail := PadTwo(Decimal(total % 60));
      var rest := [M, SPACE] + tail + [S];
      DigitsInFront(front, rest);
      Assoc(front, [M, SPACE], tail);
      Assoc(front, [M, SPACE] + tail, [S]);
      assert FormatRemaining(ms) == front + rest;
      assert (front + rest)[|front|..] == rest;
      assert rest[2..4] == tail;
    }
  }

  /** A label keeps its width while its minutes stay the same. */
  lemma LabelWidth(ms: real, ms': real)
    requires WholeSeconds(ms) / 60 == WholeSeconds(ms') / 60 > 0
    ensures |FormatRemaining(ms)| == |FormatRemaining(ms')|
  {
    TwoDigits(WholeSeconds(ms) % 60);
    TwoDigits(WholeSeconds(ms') % 60);
  }
}
