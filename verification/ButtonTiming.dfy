/** When the button handler calls back: its gestures told by how long the debounced level has
    been pressed and released, without its states and counters
    (src/new_pins.c, lines 2075 to 2198). */
module ButtonTiming {
  import opened Bytes
  import opened Buttons

  /** A call of the handler as far as gestures go: whether the debounced level is the one of a
      pressed button, and the time since the last call. */
  datatype Step = Step(down: bool, ms: nat)

  function StepsOf(l: Level, rs: seq<Reading>, active: bool): (ss: seq<Step>)
    ensures |ss| == |rs|
  {
    if rs == [] then []
    else
      var n := |rs| - 1;
      StepsOf(l, rs[..n], active) + [Step(LevelAfter(l, rs).level == active, rs[n].ms)]
  }

  function Sum(ss: seq<Step>): nat {
    if ss == [] then 0 else Sum(ss[..|ss| - 1]) + ss[|ss| - 1].ms
  }

  /** Where the level became what it is at the end. */
  function Start(ss: seq<Step>): (j: nat)
    requires ss != []
    ensures j < |ss| && forall i :: j <= i < |ss| ==> ss[i].down == ss[|ss| - 1].down
    ensures j > 0 ==> ss[j - 1].down != ss[j].down
  {
    var n := |ss| - 1;
    if n > 0 && ss[n - 1].down == ss[n].down then Start(ss[..n]) else n
  }

  /** The time since the call that saw it become so. */
  function Lasted(ss: seq<Step>): nat
    requires ss != []
  {
    Sum(ss[Start(ss) + 1..])
  }

  /** What a stretch of one level is in a gesture: its first press, a press after `n` releases,
      the pause after `n` releases, or no part of one. */
  datatype Part = Nothing | FirstPress | RenewedPress(n: nat) | Pause(n: nat)

  /** A further press is brief if it takes less than a short time, by a counter of 16 bits. */
  predicate Brief(lasted: nat, shortMs: nat) {
    lasted % 0x1_0000 < shortMs
  }

  /** The counter tells this rightly for every short time exactly if it does not overflow: a
      press of 65600 ms counts as one of 64 ms. */
  lemma BriefIff(lasted: nat)
    ensures (forall shortMs: nat :: shortMs <= 0x1_0000 ==> (Brief(lasted, shortMs) <==> lasted < shortMs))
       <==> lasted < 0x1_0000
  {
    assert Brief(lasted, 0x1_0000);
  }

  /** What the stretch that begins with `s` is after one that lasted `d`. A press goes on with
      the gesture if the pause was no longer than a short time; the release that ends a first
      press does if the press was no hold, and one that ends a further press if that was brief,
      up to the release itself. */
  function PartAfter(was: Part, d: nat, s: Step, t: Times): Part {
    if s.down then
      if was.Pause? && d <= t.shortMs then RenewedPress(was.n) else FirstPress
    else
      match was
      case FirstPress => if d <= t.longMs then Pause(1) else Nothing
      case RenewedPress(n) => if Brief(d + s.ms, t.shortMs) then Pause(n + 1) else Nothing
      case _ => Nothing
  }

  function PartOf(ss: seq<Step>, t: Times): Part
    decreases |ss|
  {
    if ss == [] then Nothing
    else
      var j := Start(ss);
      PartAfter(PartOf(ss[..j], t), if j == 0 then 0 else Lasted(ss[..j]), ss[j], t)
  }

  /** The last call finds a hold that was told before. */
  predicate Holds(ss: seq<Step>, t: Times) {
    && ss != [] && Start(ss) < |ss| - 1 && PartOf(ss, t) == FirstPress
    && Lasted(ss[..|ss| - 1]) > t.longMs
  }

  /** The time held since the last callback of a hold; it begins with `h`, and a hold goes on
      with what the hold before it has left. */
  function HoldClock(h: nat, ss: seq<Step>, t: Times): nat {
    if ss == [] then h
    else
      var n := |ss| - 1;
      var was := HoldClock(h, ss[..n], t);
      if !Holds(ss, t) then was
      else if was + ss[n].ms > t.holdMs then 0
      else was + ss[n].ms
  }

  /** The callbacks of the last call: a press unless it goes on with the gesture, every release,
      the first time that a press is longer than a long time, each time that a hold has lasted
      longer than the time to repeat, and the first time that a pause is longer than a short
      time, if one to five presses are counted. */
  function Declared(h: nat, ss: seq<Step>, t: Times): seq<Callback>
    requires ss != []
  {
    var n, p := |ss| - 1, PartOf(ss, t);
    if Start(ss) == n then
      if p == FirstPress then [PressDown]
      else if ss[n].down || n == 0 then []
      else [Release]
    else
      var before, now := Lasted(ss[..n]), Lasted(ss);
      match p
      case FirstPress =>
        if before <= t.longMs < now then [HoldStart]
        else if before > t.longMs && HoldClock(h, ss[..n], t) + ss[n].ms > t.holdMs then [Hold]
        else []
      case Pause(k) =>
        if before <= t.shortMs < now && 1 <= k % 16 <= 5 then [Click(k % 16)] else []
      case _ => []
  }

  function DeclaredAt(h: nat, ss: seq<Step>, k: nat, t: Times): seq<Callback>
    requires k < |ss|
  {
    Declared(h, ss[..k + 1], t)
  }

  function AllDeclared(h: nat, ss: seq<Step>, t: Times): seq<Callback> {
    if ss == [] then [] else AllDeclared(h, ss[..|ss| - 1], t) + Declared(h, ss, t)
  }

  /** The times stay as they are, and no call comes so late that a time awaited is missed in
      16 bits. */
  ghost predicate Steady(rs: seq<Reading>, t: Times) {
    forall k :: 0 <= k < |rs| ==> rs[k].times == t && Timely(rs[k].ms, t)
  }

  /** The state of the handler, told by the part of a gesture and how long it has lasted. */
  predicate OpenAs(o: Open, ticks: nat, p: Part, d: nat, t: Times) {
    match p
    case Nothing => o == Idle
    case FirstPress => if d <= t.longMs then o == Down && ticks == d else o.Holding?
    case RenewedPress(n) => o == DownAgain(n) && ticks == d % 0x1_0000
    case Pause(n) => if d <= t.shortMs then o == Up(n) && ticks == d else o == Idle
  }

  predicate OpenFits(o: Open, ticks: nat, ss: seq<Step>, t: Times) {
    if ss == [] then o == Idle else OpenAs(o, ticks, PartOf(ss, t), Lasted(ss), t)
  }

  predicate Fits(m: Machine, h: nat, ss: seq<Step>, t: Times) {
    OpenFits(m.open, m.ticks, ss, t) && m.held == HoldClock(h, ss, t) <= t.holdMs
  }

  /** A call that finds the level as it was. */
  lemma SameLevel(ss: seq<Step>, t: Times)
    requires |ss| > 1 && ss[|ss| - 2].down == ss[|ss| - 1].down
    ensures var n := |ss| - 1;
      && Start(ss) == Start(ss[..n]) < n && PartOf(ss, t) == PartOf(ss[..n], t)
      && Lasted(ss) == Lasted(ss[..n]) + ss[n].ms
  {
    hide PartAfter;
    var n, j := |ss| - 1, Start(ss);
    assert ss[..n][..j] == ss[..j];
    assert ss[j + 1..][..n - j - 1] == ss[..n][j + 1..];
  }

  /** A call that finds it changed. */
  lemma LevelChanges(ss: seq<Step>, t: Times)
    requires ss != [] && (|ss| > 1 ==> ss[|ss| - 2].down != ss[|ss| - 1].down)
    ensures var n := |ss| - 1;
      && Start(ss) == n && Lasted(ss) == 0
      && PartOf(ss, t) == PartAfter(PartOf(ss[..n], t), if n == 0 then 0 else Lasted(ss[..n]), ss[n], t)
  {
    hide PartAfter;
    assert ss[|ss|..] == [];
  }

  /** A press is part of a gesture, and a release is none of a press. */
  lemma PartLevel(ss: seq<Step>, t: Times)
    requires ss != []
    ensures ss[|ss| - 1].down <==> PartOf(ss, t).FirstPress? || PartOf(ss, t).RenewedPress?
  {
  }

  /** No time awaited is missed in 16 bits. */
  predicate Timely(ms: nat, t: Times) {
    t.shortMs + ms < 0x1_0000 && t.longMs + ms < 0x1_0000 && t.holdMs + ms < 0x1_0000
  }

  function TurnNow(m: Machine, s: Step, t: Times): Turn {
    TurnOf(m.open, s.down, if m.open.Idle? then m.ticks else Plus(m.ticks, s.ms), m.held, Plus(m.held, s.ms), t)
  }

  /** The call told by the times, and what it leaves. */
  predicate Right(turn: Turn, h: nat, ss: seq<Step>, t: Times)
    requires ss != []
  {
    turn.calls == Declared(h, ss, t) && OpenFits(turn.open, turn.ticks, ss, t) && turn.held == HoldClock(h, ss, t) <= t.holdMs
  }

  lemma StaySteps(m: Machine, h: nat, ss: seq<Step>, t: Times)
    requires |ss| > 1 && ss[|ss| - 2].down == ss[|ss| - 1].down && Timely(ss[|ss| - 1].ms, t)
    requires Fits(m, h, ss[..|ss| - 1], t)
    ensures Right(TurnNow(m, ss[|ss| - 1], t), h, ss, t)
  {
    hide PartOf, PartAfter, Lasted, Start, OpenAs, TurnNow;
    var n := |ss| - 1;
    SameLevel(ss, t);
    PartLevel(ss, t);
    StayTurns(m, PartOf(ss, t), Lasted(ss[..n]), ss[n], t);
  }

  /** What a call that finds the level as it was makes of the gesture. */
  lemma StayTurns(m: Machine, p: Part, d: nat, s: Step, t: Times)
    requires Timely(s.ms, t) && s.down == (p.FirstPress? || p.RenewedPress?) && m.held <= t.holdMs
    requires OpenAs(m.open, m.ticks, p, d, t)
    ensures var turn, longer := TurnNow(m, s, t), m.held + s.ms;
      && OpenAs(turn.open, turn.ticks, p, d + s.ms, t)
      && turn.held == (if p.FirstPress? && d > t.longMs then if longer > t.holdMs then 0 else longer else m.held)
      && turn.calls
         == match p
            case FirstPress =>
              if d <= t.longMs < d + s.ms then [HoldStart] else if d > t.longMs && longer > t.holdMs then [Hold] else []
            case Pause(k) => if d <= t.shortMs < d + s.ms && 1 <= k % 16 <= 5 then [Click(k % 16)] else []
            case _ => []
  {
    hide Plus;
    Adds(d, s.ms);
    Adds(m.held, s.ms);
  }

  lemma Adds(d: nat, ms: nat)
    ensures Plus(d % 0x1_0000, ms) == (d + ms) % 0x1_0000
    ensures d + ms < 0x1_0000 ==> Plus(d, ms) == d + ms
  {
  }

  lemma FirstSteps(m: Machine, h: nat, ss: seq<Step>, t: Times)
    requires |ss| == 1 && Fits(m, h, [], t)
    ensures Right(TurnNow(m, ss[0], t), h, ss, t)
  {
    hide PartOf, Lasted, Start;
    LevelChanges(ss, t);
    NoPart(t);
    assert ss[..0] == [];
  }

  lemma NoPart(t: Times)
    ensures PartOf([], t) == Nothing
  {
  }

  lemma ChangeSteps(m: Machine, h: nat, ss: seq<Step>, t: Times)
    requires |ss| > 1 && ss[|ss| - 2].down != ss[|ss| - 1].down && Timely(ss[|ss| - 1].ms, t)
    requires Fits(m, h, ss[..|ss| - 1], t)
    ensures Right(TurnNow(m, ss[|ss| - 1], t), h, ss, t)
  {
    hide PartOf, Lasted, Start, OpenAs, PartAfter;
    var n := |ss| - 1;
    var before, s := ss[..n], ss[n];
    LevelChanges(ss, t);
    PartLevel(before, t);
    PartLevel(ss, t);
    assert !Holds(ss, t);
    assert HoldClock(h, ss, t) == HoldClock(h, before, t);
    ChangeTurns(m, PartOf(before, t), Lasted(before), s, t);
  }

  /** What a change of the level makes of the gesture. */
  lemma ChangeTurns(m: Machine, p: Part, d: nat, s: Step, t: Times)
    requires Timely(s.ms, t) && s.down == !(p.FirstPress? || p.RenewedPress?)
    requires OpenAs(m.open, m.ticks, p, d, t)
    ensures var turn := TurnNow(m, s, t);
      && turn.calls == (if !s.down then [Release] else if PartAfter(p, d, s, t) == FirstPress then [PressDown] else [])
      && turn.held == m.held
      && OpenAs(turn.open, turn.ticks, PartAfter(p, d, s, t), 0, t)
  {
    hide Plus, Brief;
    Wraps(d, s.ms, t.shortMs);
  }

  lemma Wraps(d: nat, ms: nat, shortMs: nat)
    ensures Plus(d % 0x1_0000, ms) < shortMs <==> Brief(d + ms, shortMs)
  {
  }

  /** Over every run from rest: the callbacks are the ones that the times declare. */
  lemma {:induction false} RunDeclared(m: Machine, rs: seq<Reading>, active: bool, t: Times)
    requires m.open.Idle? && m.held <= t.holdMs && Steady(rs, t)
    ensures var ss := StepsOf(m.level, rs, active);
      CallsOf(m, rs, active) == AllDeclared(m.held, ss, t) && Fits(MachineAfter(m, rs, active), m.held, ss, t)
    decreases |rs|
  {
    hide Right, OpenFits, TurnOf, Declared, HoldClock, LevelAfter, Debounced;
    if rs == [] {
      Rest(m, t);
    } else {
      var n := |rs| - 1;
      var at, ss := MachineAfter(m, rs[..n], active), StepsOf(m.level, rs, active);
      RunDeclared(m, rs[..n], active, t);
      assert ss[..n] == StepsOf(m.level, rs[..n], active);
      LevelRuns(m, rs[..n], active);
      LevelRuns(m, rs, active);
      assert rs[n].times == t;
      assert TurnAt(at, rs[n], active) == TurnNow(at, ss[n], t);
      Steps(at, m.held, ss, t);
      Unfolded(TurnNow(at, ss[n], t), m.held, ss, t);
    }
  }

  lemma Rest(m: Machine, t: Times)
    requires m.open.Idle? && m.held <= t.holdMs
    ensures Fits(m, m.held, [], t)
  {
  }

  lemma Unfolded(turn: Turn, h: nat, ss: seq<Step>, t: Times)
    requires ss != [] && Right(turn, h, ss, t)
    ensures turn.calls == Declared(h, ss, t) && OpenFits(turn.open, turn.ticks, ss, t)
    ensures turn.held == HoldClock(h, ss, t) <= t.holdMs
  {
  }

  lemma Steps(m: Machine, h: nat, ss: seq<Step>, t: Times)
    requires ss != [] && Timely(ss[|ss| - 1].ms, t) && Fits(m, h, ss[..|ss| - 1], t)
    ensures Right(TurnNow(m, ss[|ss| - 1], t), h, ss, t)
  {
    hide Right, Fits, TurnNow;
    if |ss| == 1 {
      assert ss[..0] == [];
      FirstSteps(m, h, ss, t);
    } else if ss[|ss| - 2].down == ss[|ss| - 1].down {
      StaySteps(m, h, ss, t);
    } else {
      ChangeSteps(m, h, ss, t);
    }
  }

  /** The callbacks of one call. */
  function CallsAt(m: Machine, rs: seq<Reading>, k: nat, active: bool): seq<Callback>
    requires k < |rs|
  {
    TurnAt(MachineAfter(m, rs[..k], active), rs[k], active).calls
  }

  lemma {:induction false} StepsPrefix(l: Level, rs: seq<Reading>, k: nat, active: bool)
    requires k <= |rs|
    ensures StepsOf(l, rs[..k], active) == StepsOf(l, rs, active)[..k]
    decreases |rs|
  {
    if k < |rs| {
      var n := |rs| - 1;
      assert rs[..n][..k] == rs[..k];
      StepsPrefix(l, rs[..n], k, active);
    } else {
      assert rs[..k] == rs;
    }
  }

  /** Each call of a run from rest calls back what the times declare. */
  lemma CallDeclared(m: Machine, rs: seq<Reading>, k: nat, active: bool, t: Times)
    requires m.open.Idle? && m.held <= t.holdMs && Steady(rs, t) && k < |rs|
    ensures CallsAt(m, rs, k, active) == DeclaredAt(m.held, StepsOf(m.level, rs, active), k, t)
  {
    hide OpenFits, TurnOf, Declared, HoldClock, LevelAfter, Debounced;
    var now := rs[..k + 1];
    assert now[..k] == rs[..k];
    RunDeclared(m, rs[..k], active, t);
    RunDeclared(m, now, active, t);
    StepsPrefix(m.level, rs, k + 1, active);
    StepsPrefix(m.level, rs, k, active);
    var ss := StepsOf(m.level, rs, active);
    assert ss[..k + 1][..k] == ss[..k];
    SameTail(AllDeclared(m.held, ss[..k], t), CallsAt(m, rs, k, active), Declared(m.held, ss[..k + 1], t));
  }

  lemma SameTail(a: seq<Callback>, b: seq<Callback>, c: seq<Callback>)
    requires a + b == a + c
    ensures b == c
  {
    assert (a + b)[|a|..] == b && (a + c)[|a|..] == c;
  }

  /** The level has been as it is since the j-th call, and the part is the one that began there. */
  lemma {:induction false} SameStretch(ss: seq<Step>, j: nat, t: Times)
    requires j < |ss| && Start(ss[..j + 1]) == j
    requires forall k :: j <= k < |ss| ==> ss[k].down == ss[j].down
    ensures Start(ss) == j && PartOf(ss, t) == PartOf(ss[..j + 1], t) && Lasted(ss) == Sum(ss[j + 1..])
    decreases |ss|
  {
    hide PartOf, Start;
    var n := |ss| - 1;
    if j < n {
      assert ss[..n][..j + 1] == ss[..j + 1];
      assert ss[..n][j + 1..] == ss[j + 1..][..n - j - 1];
      SameStretch(ss[..n], j, t);
      SameLevel(ss, t);
    } else {
      assert ss[..j + 1] == ss;
    }
  }

  /** Where the stretch at the end began. */
  lemma {:induction false} StretchBegan(ss: seq<Step>)
    requires ss != []
    ensures Start(ss[..Start(ss) + 1]) == Start(ss)
  {
    var n, j := |ss| - 1, Start(ss);
    if j < n {
      assert ss[..n][..j + 1] == ss[..j + 1];
      StretchBegan(ss[..n]);
    } else {
      assert ss[..j + 1] == ss;
    }
  }

  /** Pressed from the call that told a press on. */
  predicate PressedSince(h: nat, ss: seq<Step>, j: nat, t: Times) {
    j < |ss| && PressDown in DeclaredAt(h, ss, j, t) && forall k :: j <= k < |ss| ==> ss[k].down
  }

  lemma PressedLasts(h: nat, ss: seq<Step>, j: nat, t: Times)
    requires PressedSince(h, ss, j, t)
    ensures Start(ss) == j && PartOf(ss, t) == FirstPress && Lasted(ss) == Sum(ss[j + 1..])
  {
    hide PartOf, HoldClock, Lasted, Start;
    SameStretch(ss, j, t);
  }

  lemma PressTold(h: nat, ss: seq<Step>, t: Times)
    requires ss != [] && PartOf(ss, t) == FirstPress
    ensures PressedSince(h, ss, Start(ss), t)
  {
    hide PartOf, HoldClock, Lasted, Start;
    var j := Start(ss);
    StretchBegan(ss);
    PartLevel(ss, t);
    SameStretch(ss, j, t);
  }

  /** The start of a hold is told exactly by the first call at which the button has been pressed
      for longer than a long time since its press was told. */
  lemma HoldStartIff(h: nat, ss: seq<Step>, t: Times)
    requires ss != []
    ensures var n := |ss| - 1;
      HoldStart in Declared(h, ss, t)
      <==> exists j :: 0 <= j < n && PressedSince(h, ss, j, t) && Sum(ss[j + 1..n]) <= t.longMs < Sum(ss[j + 1..])
  {
    hide PartOf, HoldClock, Lasted, Start, PressedSince;
    var n := |ss| - 1;
    if HoldStart in Declared(h, ss, t) {
      var j := Start(ss);
      PressTold(h, ss, t);
      Before(h, ss, j, t);
    }
    forall j | 0 <= j < n && PressedSince(h, ss, j, t) && Sum(ss[j + 1..n]) <= t.longMs < Sum(ss[j + 1..])
      ensures HoldStart in Declared(h, ss, t)
    {
      Before(h, ss, j, t);
    }
  }

  /** The call before, if the press had been told by then. */
  lemma Before(h: nat, ss: seq<Step>, j: nat, t: Times)
    requires j < |ss| - 1 && PressedSince(h, ss, j, t)
    ensures var n := |ss| - 1;
      && PressedSince(h, ss[..n], j, t)
      && Start(ss) == j && PartOf(ss, t) == FirstPress && Lasted(ss) == Sum(ss[j + 1..])
      && Start(ss[..n]) == j && PartOf(ss[..n], t) == FirstPress && Lasted(ss[..n]) == Sum(ss[j + 1..n])
      && Lasted(ss) == Lasted(ss[..n]) + ss[n].ms
  {
    hide PartOf, HoldClock, Lasted, Start, Declared;
    var n := |ss| - 1;
    assert ss[..n][..j + 1] == ss[..j + 1];
    PressedLasts(h, ss, j, t);
    PressedLasts(h, ss[..n], j, t);
    SameLevel(ss, t);
    assert ss[..n][j + 1..] == ss[j + 1..n];
  }

  /** The click of a single press is told exactly by the first call at which the button has been
      released for longer than a short time. */
  lemma SingleClickIff(h: nat, ss: seq<Step>, i: nat, j: nat, t: Times, c: nat)
    requires i < j < |ss| && PressedSince(h, ss[..j], i, t) && Sum(ss[i + 1..j]) <= t.longMs
    requires forall k :: j <= k < |ss| ==> !ss[k].down
    ensures var n := |ss| - 1;
      Click(c) in Declared(h, ss, t)
      <==> c == 1 && j < n && Sum(ss[j + 1..n]) <= t.shortMs < Sum(ss[j + 1..])
  {
    hide PartOf, HoldClock, Lasted, Start, PressedSince;
    var n, was, at := |ss| - 1, ss[..j], ss[..j + 1];
    PressedLasts(h, was, i, t);
    PartLevel(was, t);
    assert was[i + 1..] == ss[i + 1..j];
    assert at[..j] == was;
    LevelChanges(at, t);
    SameStretch(ss, j, t);
    if j < n {
      assert ss[..n][..j + 1] == at;
      SameStretch(ss[..n], j, t);
      assert ss[..n][j + 1..] == ss[j + 1..n];
    }
  }

  /** A hold was told by the j-th call, and none since. */
  predicate HeldSince(h: nat, ss: seq<Step>, j: nat, t: Times) {
    && j < |ss| && (HoldStart in DeclaredAt(h, ss, j, t) || Hold in DeclaredAt(h, ss, j, t))
    && (forall k :: j <= k < |ss| ==> ss[k].down)
    && forall k :: j < k < |ss| ==> Hold !in DeclaredAt(h, ss, k, t)
  }

  /** Until a hold is told again, its clock goes on. */
  lemma {:induction false} HoldClockSince(h: nat, ss: seq<Step>, j: nat, t: Times)
    requires HeldSince(h, ss, j, t)
    ensures HoldClock(h, ss, t) == HoldClock(h, ss[..j + 1], t) + Sum(ss[j + 1..])
    ensures PartOf(ss, t) == FirstPress && Lasted(ss) > t.longMs
    decreases |ss|
  {
    hide PartOf, Lasted, Start, Declared, HoldClock;
    var n := |ss| - 1;
    if j == n {
      assert ss[..j + 1] == ss && ss[j + 1..] == [];
      StayLonger(h, ss, t);
    } else {
      Shorter(h, ss, j, t);
      HoldClockSince(h, ss[..n], j, t);
      SameLevel(ss, t);
      Repeats(h, ss, t);
      assert ss[..n][..j + 1] == ss[..j + 1] && ss[..n][j + 1..] == ss[j + 1..][..n - j - 1];
      assert ss[..n + 1] == ss;
      assert Hold !in DeclaredAt(h, ss, n, t);
    }
  }

  /** A call during a press that was told as a hold. */
  lemma Repeats(h: nat, ss: seq<Step>, t: Times)
    requires |ss| > 1 && Start(ss) < |ss| - 1 && PartOf(ss, t) == FirstPress && Lasted(ss[..|ss| - 1]) > t.longMs
    ensures var n := |ss| - 1;
      var longer := HoldClock(h, ss[..n], t) + ss[n].ms;
      && (Hold in Declared(h, ss, t) <==> longer > t.holdMs)
      && HoldClock(h, ss, t) == if Hold in Declared(h, ss, t) then 0 else longer
  {
    hide PartOf, Lasted, Start;
  }

  lemma Shorter(h: nat, ss: seq<Step>, j: nat, t: Times)
    requires HeldSince(h, ss, j, t) && j < |ss| - 1
    ensures HeldSince(h, ss[..|ss| - 1], j, t)
  {
    hide Declared;
    var was := ss[..|ss| - 1];
    assert was[..j + 1] == ss[..j + 1];
    forall k | j <= k < |was| ensures was[k].down {
      assert was[k] == ss[k];
    }
    forall k | j < k < |was| ensures Hold !in DeclaredAt(h, was, k, t) {
      assert was[..k + 1] == ss[..k + 1];
      assert Hold !in DeclaredAt(h, ss, k, t);
    }
  }

  lemma StayLonger(h: nat, ss: seq<Step>, t: Times)
    requires ss != [] && (HoldStart in Declared(h, ss, t) || Hold in Declared(h, ss, t))
    ensures PartOf(ss, t) == FirstPress && Lasted(ss) > t.longMs && Start(ss) < |ss| - 1
  {
    hide PartOf, HoldClock, Start;
    var n := |ss| - 1;
    if Start(ss) < n {
      SameLevel(ss, t);
    }
  }

  /** After a hold is told, it is told again exactly by the first call at which it has lasted
      longer than the time to repeat, counted from the last one; before the first repetition
      the clock begins with what it had when the hold was told. */
  lemma HoldIff(h: nat, ss: seq<Step>, j: nat, t: Times)
    requires j < |ss| - 1 && HeldSince(h, ss[..|ss| - 1], j, t) && ss[|ss| - 1].down
    ensures Hold in Declared(h, ss, t) <==> HoldClock(h, ss[..j + 1], t) + Sum(ss[j + 1..]) > t.holdMs
    ensures HoldClock(h, ss[..j + 1], t) == if Hold in DeclaredAt(h, ss, j, t) then 0 else HoldClock(h, ss[..j], t)
  {
    hide PartOf, Lasted, Start, Declared, HoldClock;
    var n := |ss| - 1;
    HoldClockSince(h, ss[..n], j, t);
    assert ss[..n][..j + 1] == ss[..j + 1] && ss[..n][j + 1..] == ss[j + 1..][..n - j - 1];
    assert ss[..n][n - 1].down;
    SameLevel(ss, t);
    Repeats(h, ss, t);
    assert ss[..j + 1][..j] == ss[..j];
    HoldTold(h, ss[..j + 1], t);
  }

  lemma HoldTold(h: nat, ss: seq<Step>, t: Times)
    requires ss != [] && (HoldStart in Declared(h, ss, t) || Hold in Declared(h, ss, t))
    ensures HoldClock(h, ss, t) == if Hold in Declared(h, ss, t) then 0 else HoldClock(h, ss[..|ss| - 1], t)
  {
    hide PartOf, Start, Lasted;
  }

  /** A press longer than a long time was told as a hold. */
  lemma {:induction false} LastTold(h: nat, ss: seq<Step>, t: Times) returns (j: nat)
    requires ss != [] && PartOf(ss, t) == FirstPress && Lasted(ss) > t.longMs
    ensures HeldSince(h, ss, j, t)
    decreases |ss|
  {
    hide PartOf, Start, Lasted, HoldClock;
    var n := |ss| - 1;
    PartLevel(ss, t);
    if HoldStart in Declared(h, ss, t) || Hold in Declared(h, ss, t) {
      assert ss[..n + 1] == ss;
      j := n;
    } else {
      Longer(ss);
      SameLevel(ss, t);
      j := LastTold(h, ss[..n], t);
      HeldOn(h, ss, j, t);
    }
  }

  lemma Longer(ss: seq<Step>)
    requires ss != []
    ensures Start(ss) == |ss| - 1 ==> Lasted(ss) == 0
  {
    assert ss[|ss|..] == [];
  }

  lemma HeldOn(h: nat, ss: seq<Step>, j: nat, t: Times)
    requires ss != [] && HeldSince(h, ss[..|ss| - 1], j, t) && ss[|ss| - 1].down && Hold !in Declared(h, ss, t)
    ensures HeldSince(h, ss, j, t)
  {
    hide Declared;
    var n := |ss| - 1;
    var was := ss[..n];
    assert ss[..n + 1] == ss && was[..j + 1] == ss[..j + 1];
    forall k | j <= k < |ss| ensures ss[k].down {
      assert k < n ==> was[k].down;
    }
    forall k | j < k < |ss| ensures Hold !in DeclaredAt(h, ss, k, t) {
      if k < n {
        assert was[..k + 1] == ss[..k + 1];
        assert Hold !in DeclaredAt(h, was, k, t);
      }
    }
  }

  /** Every repetition follows a hold that was told. */
  lemma HoldFollows(h: nat, ss: seq<Step>, t: Times) returns (j: nat)
    requires ss != [] && Hold in Declared(h, ss, t)
    ensures j < |ss| - 1 && HeldSince(h, ss[..|ss| - 1], j, t) && ss[|ss| - 1].down
  {
    hide PartOf, Start, Lasted, HoldClock;
    PartLevel(ss, t);
    SameLevel(ss, t);
    j := LastTold(h, ss[..|ss| - 1], t);
  }
}
