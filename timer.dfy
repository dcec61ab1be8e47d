/** The quiz countdown (frontend_react/src/components/quiz/Timer.js): the
    `MM:SS` rendering of the seconds left, and the countdown itself, which
    loses one second per tick, schedules no tick once it has reached zero and
    calls its `onTimeUp` handler at most once. */
module Timer {
  import opened Common

  /** `String.prototype.padStart(width, fill)`: `s` preceded by as many
      copies of `fill` as it takes to reach `width` characters. */
  function PadStart(s: string, width: nat, fill: char): (r: string)
    ensures |r| == if |s| >= width then |s| else width
    ensures r[|r| - |s|..] == s
    ensures forall k :: 0 <= k < |r| - |s| ==> r[k] == fill
  {
    if |s| >= width then s else seq(width - |s|, _ => fill) + s
  }

  /** The text shown for `seconds` seconds left: whole minutes, then the
      remaining seconds, each at least two digits wide. */
  function FormatTime(seconds: nat): (r: string)
    ensures |r| >= 5 && r[|r| - 3] == ':'
  {
    PadStart(NatToDecimal(seconds / 60), 2, '0') + ":" + PadStart(NatToDecimal(seconds % 60), 2, '0')
  }

  /** Zero padding keeps a digit string's value. */
  lemma PaddedValue(s: string, width: nat)
    requires AllDigits(s)
    ensures AllDigits(PadStart(s, width, '0'))
    ensures DecimalValue(PadStart(s, width, '0')) == DecimalValue(s)
  {
    var p := PadStart(s, width, '0');
    assert p == seq(|p| - |s|, _ => '0') + s;
    LeadingZeros(|p| - |s|, s);
  }

  /** `r` is an `MM:SS` text reading as `minutes` and `secs`: at least two
      minute digits with no leading zero beyond those two, a colon, and
      exactly two second digits. */
  ghost predicate ShowsTime(r: string, minutes: nat, secs: nat) {
    && |r| >= 5 && r[|r| - 3] == ':'
    && AllDigits(r[..|r| - 3]) && AllDigits(r[|r| - 2..])
    && (|r| > 5 ==> r[0] != '0')
    && DecimalValue(r[..|r| - 3]) == minutes && DecimalValue(r[|r| - 2..]) == secs
  }

  /** Reading `FormatTime(seconds)` back gives the whole minutes and the
      seconds below 60, so `60 * MM + SS == seconds`. */
  lemma FormatTimeReadsBack(seconds: nat)
    ensures ShowsTime(FormatTime(seconds), seconds / 60, seconds % 60)
  {
    var minutes, rest := seconds / 60, seconds % 60;
    var pm := PadStart(NatToDecimal(minutes), 2, '0');
    var ps := PadStart(NatToDecimal(rest), 2, '0');
    PaddedValue(NatToDecimal(minutes), 2);
    PaddedValue(NatToDecimal(rest), 2);
    ReadFields(pm, ps);
    assert FormatTime(seconds) == pm + ":" + ps;
  }

  /** The two fields of `MM:SS` can be cut back out of the text. */
  lemma ReadFields(pm: string, ps: string)
    requires |pm| >= 1 && |ps| == 2
    ensures var r := pm + ":" + ps;
      && |r| - 3 == |pm| && r[|r| - 3] == ':' && r[0] == pm[0]
      && r[..|r| - 3] == pm && r[|r| - 2..] == ps
  {
  }

  /** One mounted `Timer`: the seconds left, the once-only flag kept in a
      ref, and how many times the handler has been called so far. */
  class Countdown {
    var secondsLeft: int
    var hasCalledTimeUp: bool
    var timeUpCalls: nat
    const hasHandler: bool
    const initialSeconds: int

    /** The handler has been called at most once, only when the count had
        reached zero, and a count that started at zero or above never goes
        below zero. */
    ghost predicate Valid()
      reads this
    {
      && secondsLeft <= initialSeconds
      && (initialSeconds >= 0 ==> secondsLeft >= 0)
      && timeUpCalls <= 1
      && (hasCalledTimeUp <==> timeUpCalls == 1)
      && (hasCalledTimeUp ==> hasHandler && secondsLeft <= 0)
    }

    /** Mounting: the count starts at `durationMinutes * 60`, the flag is
        clear, and the first effect run follows. */
    constructor (durationMinutes: int, hasHandler: bool)
      ensures Valid()
      ensures this.hasHandler == hasHandler
      ensures initialSeconds == durationMinutes * 60 && secondsLeft == initialSeconds
      ensures !hasCalledTimeUp && timeUpCalls == 0
    {
      this.hasHandler := hasHandler;
      initialSeconds := durationMinutes * 60;
      secondsLeft := durationMinutes * 60;
      hasCalledTimeUp := false;
      timeUpCalls := 0;
    }

    /** The effect that runs after every render: at or below zero it calls
        the handler unless the flag says it was already called; above zero
        it (re)installs the one-second interval. */
    method RunEffect() returns (fired: bool, ticking: bool)
      requires Valid()
      modifies this
      ensures Valid()
      ensures secondsLeft == old(secondsLeft)
      ensures ticking <==> secondsLeft > 0
      ensures fired <==> secondsLeft <= 0 && hasHandler && !old(hasCalledTimeUp)
      ensures hasCalledTimeUp == (old(hasCalledTimeUp) || fired)
      ensures timeUpCalls == old(timeUpCalls) + (if fired then 1 else 0)
    {
      fired, ticking := false, false;
      if secondsLeft <= 0 {
        if hasHandler && !hasCalledTimeUp {
          fired := true;
          timeUpCalls := timeUpCalls + 1;
          hasCalledTimeUp := true;
        }
        return;
      }
      ticking := true;
    }

    /** One interval callback: the count loses exactly one second, and the
        effect runs again on the new count. A tick only happens while an
        interval is installed, that is, while the count is above zero. */
    method Tick() returns (fired: bool)
      requires Valid() && secondsLeft > 0
      modifies this
      ensures Valid()
      ensures secondsLeft == old(secondsLeft) - 1 && secondsLeft >= 0
      ensures fired <==> secondsLeft == 0 && hasHandler && !old(hasCalledTimeUp)
      ensures timeUpCalls == old(timeUpCalls) + (if fired then 1 else 0)
    {
      secondsLeft := secondsLeft - 1;
      var ticking;
      fired, ticking := RunEffect();
    }
  }

  /** Runs the countdown from mount until it stops ticking: the handler is
      called exactly once when there is one, after exactly `initialSeconds`
      ticks for a positive start. */
  method RunToEnd(durationMinutes: int, hasHandler: bool) returns (ticks: nat, calls: nat)
    ensures ticks == if durationMinutes > 0 then durationMinutes * 60 else 0
    ensures calls == if hasHandler then 1 else 0
  {
    var timer := new Countdown(durationMinutes, hasHandler);
    var fired, ticking := timer.RunEffect();
    ticks := 0;
    while ticking
      invariant timer.Valid() && timer.hasHandler == hasHandler
      invariant ticking <==> timer.secondsLeft > 0
      invariant durationMinutes > 0 ==> ticks + timer.secondsLeft == durationMinutes * 60
      invariant durationMinutes <= 0 ==> ticks == 0
      invariant timer.timeUpCalls == (if hasHandler && timer.secondsLeft <= 0 then 1 else 0)
      decreases timer.secondsLeft
    {
      fired := timer.Tick();
      ticks := ticks + 1;
      ticking := timer.secondsLeft > 0;
    }
    calls := timer.timeUpCalls;
    fired, ticking := timer.RunEffect();
    assert !fired;
  }
}
