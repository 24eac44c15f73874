/** The button handler: debouncing, and the machine that tells clicks from holds
    (src/new_pins.c, lines 108 to 132, 808 to 816 and 2061 to 2198). */
module Buttons {
  import opened Bytes

  const DEBOUNCE_MS := 75

  /** Times a user can configure, in milliseconds. */
  datatype Times = Times(shortMs: nat, longMs: nat, holdMs: nat)

  datatype Callback = PressDown | Release | HoldStart | Hold | Click(k: nat)

  /** A finished gesture: a hold, or a number of presses, perhaps told apart as a click. */
  datatype Gesture = Held(holds: nat) | Pressed(releases: nat, click: Option<nat>)

  /** A gesture under way. */
  datatype Open = Idle | Down | Up(releases: nat) | DownAgain(releases: nat) | Holding(holds: nat)

  function Repeat(c: Callback, n: nat): (r: seq<Callback>)
    ensures |r| == n
  {
    seq(n, i => c)
  }

  function Word(g: Gesture): seq<Callback> {
    match g
    case Held(n) => [PressDown, HoldStart] + Repeat(Hold, n) + [Release]
    case Pressed(n, click) => [PressDown] + Repeat(Release, n) + if click.Some? then [Click(click.value)] else []
  }

  function OpenWord(o: Open): seq<Callback> {
    match o
    case Idle => []
    case Down => [PressDown]
    case Up(n) => [PressDown] + Repeat(Release, n)
    case DownAgain(n) => [PressDown] + Repeat(Release, n)
    case Holding(n) => [PressDown, HoldStart] + Repeat(Hold, n)
  }

  function Words(gs: seq<Gesture>): seq<Callback> {
    if gs == [] then [] else Words(gs[..|gs| - 1]) + Word(gs[|gs| - 1])
  }

  /** At least one release; a click of one to five presses, their number modulo 16. */
  predicate Proper(g: Gesture) {
    g.Pressed? ==> g.releases >= 1 && (g.click.Some? ==> 1 <= g.click.value <= 5 && g.releases % 16 == g.click.value)
  }

  /** The callbacks of a run are those of proper gestures and of one under way. */
  ghost predicate InLanguage(log: seq<Callback>, gs: seq<Gesture>, o: Open) {
    log == Words(gs) + OpenWord(o) && forall i :: 0 <= i < |gs| ==> Proper(gs[i])
  }

  /** A callback that goes on with the gesture under way. */
  lemma GoesOn(log: seq<Callback>, gs: seq<Gesture>, o: Open, c: Callback, o': Open)
    requires InLanguage(log, gs, o) && OpenWord(o') == OpenWord(o) + [c]
    ensures InLanguage(log + [c], gs, o')
  {
    Assoc(Words(gs), OpenWord(o), [c]);
  }

  /** The last callbacks of a gesture, or none, end it. */
  lemma GestureEnds(log: seq<Callback>, gs: seq<Gesture>, o: Open, cs: seq<Callback>, g: Gesture)
    requires InLanguage(log, gs, o) && Word(g) == OpenWord(o) + cs && Proper(g)
    ensures InLanguage(log + cs, gs + [g], Idle)
  {
    assert (gs + [g])[..|gs|] == gs;
    Assoc(Words(gs), OpenWord(o), cs);
    assert log + cs + [] == log + cs;
  }

  lemma RepeatMore(c: Callback, n: nat)
    ensures Repeat(c, n + 1) == Repeat(c, n) + [c]
  {
  }

  /** Whether the level may change now: the time that has added up, in one byte. */
  predicate Settled(cnt: nat, ms: nat) {
    (cnt + ms) % 256 >= DEBOUNCE_MS
  }

  /** The byte is wide enough for every count below the threshold exactly for these times
      between two calls. */
  lemma DebounceExactIff(ms: nat)
    ensures (forall cnt :: 0 <= cnt < DEBOUNCE_MS ==> (Settled(cnt, ms) <==> cnt + ms >= DEBOUNCE_MS))
       <==> ms < DEBOUNCE_MS || DEBOUNCE_MS <= ms % 256 <= 181
  {
    var r := ms % 256;
    if ms >= DEBOUNCE_MS && !(DEBOUNCE_MS <= r <= 181) {
      var cnt: nat := if r < DEBOUNCE_MS then 0 else 256 - r;
      assert !Settled(cnt, ms) && cnt + ms >= DEBOUNCE_MS;
    } else {
      forall cnt | 0 <= cnt < DEBOUNCE_MS ensures Settled(cnt, ms) <==> cnt + ms >= DEBOUNCE_MS {
        if ms >= DEBOUNCE_MS {
          SumStays(cnt, ms);
        }
      }
    }
  }

  lemma SumStays(cnt: nat, ms: nat)
    requires cnt < DEBOUNCE_MS <= ms % 256 <= 181
    ensures (cnt + ms) % 256 == cnt + ms % 256
  {
  }

  /** What a call makes of the gesture under way: the gesture then, the callbacks, the gesture
      that has ended, if one has, and the two times counted from there on. */
  datatype Turn = Turn(open: Open, calls: seq<Callback>, ended: Option<Gesture>, ticks: nat, held: nat)

  /** The click told after `n` releases, counted in four bits. */
  function Told(n: nat): Option<nat> {
    if 1 <= n % 16 <= 5 then Some(n % 16) else None
  }

  /** `down` is the debounced level, `ticks` the time since the last change, `held` and `longer`
      the time since the last hold callback before and after this call. */
  function TurnOf(o: Open, down: bool, ticks: nat, held: nat, longer: nat, times: Times): Turn {
    match o
    case Idle => if down then Turn(Down, [PressDown], None, 0, held) else Turn(Idle, [], None, ticks, held)
    case Down =>
      if !down then Turn(Up(1), [Release], None, 0, held)
      else if ticks > times.longMs then Turn(Holding(0), [HoldStart], None, ticks, held)
      else Turn(o, [], None, ticks, held)
    case Up(n) =>
      if down then Turn(DownAgain(n), [], None, 0, held)
      else if ticks > times.shortMs then
        var k := Told(n);
        Turn(Idle, if k.Some? then [Click(k.value)] else [], Some(Pressed(n, k)), ticks, held)
      else Turn(o, [], None, ticks, held)
    case DownAgain(n) =>
      if down then Turn(o, [], None, ticks, held)
      else if ticks < times.shortMs then Turn(Up(n + 1), [Release], None, 0, held)
      else Turn(Idle, [Release], Some(Pressed(n + 1, None)), ticks, held)
    case Holding(n) =>
      if !down then Turn(Idle, [Release], Some(Held(n)), ticks, held)
      else if longer > times.holdMs then Turn(Holding(n + 1), [Hold], None, ticks, 0)
      else Turn(o, [], None, ticks, longer)
  }

  /** The debounced level, and the time counted against it. */
  datatype Level = Level(level: bool, cnt: byte)

  function Debounced(l: Level, read: bool, ms: nat): Level {
    if read == l.level then Level(l.level, 0)
    else if Settled(l.cnt, ms) then Level(read, 0)
    else Level(l.level, (l.cnt + ms) % 256)
  }

  /** What is read from the pin, the time since the last call, and the times configured. */
  datatype Reading = Reading(level: bool, ms: nat, times: Times)

  function LevelAfter(l: Level, rs: seq<Reading>): Level {
    if rs == [] then l
    else
      var n := |rs| - 1;
      Debounced(LevelAfter(l, rs[..n]), rs[n].level, rs[n].ms)
  }

  /** The whole machine: debouncer, gesture under way, and the two 16-bit times. */
  datatype Machine = Machine(level: Level, open: Open, ticks: nat, held: nat)

  function Plus(ticks: nat, ms: nat): nat {
    (ticks + ms) % 0x1_0000
  }

  /** One call of the handler; the active level is the one of a pressed button. */
  function TurnAt(m: Machine, r: Reading, active: bool): Turn {
    TurnOf(m.open, Debounced(m.level, r.level, r.ms).level == active,
           if m.open.Idle? then m.ticks else Plus(m.ticks, r.ms), m.held, Plus(m.held, r.ms), r.times)
  }

  function Moved(m: Machine, r: Reading, active: bool): Machine {
    var turn := TurnAt(m, r, active);
    Machine(Debounced(m.level, r.level, r.ms), turn.open, turn.ticks, turn.held)
  }

  function MachineAfter(m: Machine, rs: seq<Reading>, active: bool): Machine {
    if rs == [] then m
    else
      var n := |rs| - 1;
      Moved(MachineAfter(m, rs[..n], active), rs[n], active)
  }

  /** The callbacks of a run, in order. */
  function CallsOf(m: Machine, rs: seq<Reading>, active: bool): seq<Callback> {
    if rs == [] then []
    else
      var n := |rs| - 1;
      CallsOf(m, rs[..n], active) + TurnAt(MachineAfter(m, rs[..n], active), rs[n], active).calls
  }

  function EndedBy(turn: Turn): seq<Gesture> {
    if turn.ended.Some? then [turn.ended.value] else []
  }

  /** The gestures that end during a run, in order. */
  function GesturesOf(m: Machine, rs: seq<Reading>, active: bool): seq<Gesture> {
    if rs == [] then []
    else
      var n := |rs| - 1;
      GesturesOf(m, rs[..n], active) + EndedBy(TurnAt(MachineAfter(m, rs[..n], active), rs[n], active))
  }

  /** Where a gesture under way can be: after at least one release, once there has been one. */
  predicate Possible(o: Open) {
    (o.Up? || o.DownAgain?) ==> o.releases >= 1
  }

  /** One turn keeps callbacks in the language of gestures. */
  lemma TurnInLanguage(log: seq<Callback>, gs: seq<Gesture>, o: Open, down: bool, ticks: nat, held: nat, longer: nat, times: Times)
    requires InLanguage(log, gs, o) && Possible(o)
    ensures var turn := TurnOf(o, down, ticks, held, longer, times);
      Possible(turn.open) && InLanguage(log + turn.calls, gs + EndedBy(turn), turn.open)
  {
    hide InLanguage;
    var turn := TurnOf(o, down, ticks, held, longer, times);
    assert log + [] == log && gs + [] == gs;
    if o.DownAgain? { RepeatMore(Release, o.releases); }
    if o.Down? { RepeatMore(Release, 0); }
    if o.Holding? { RepeatMore(Hold, o.holds); }
    if turn.ended.Some? {
      assert Word(turn.ended.value) == OpenWord(o) + turn.calls;
      GestureEnds(log, gs, o, turn.calls, turn.ended.value);
    } else if turn.calls != [] {
      GoesOn(log, gs, o, turn.calls[0], turn.open);
    } else {
      SameWord(log, gs, o, turn.open);
    }
  }

  lemma SameWord(log: seq<Callback>, gs: seq<Gesture>, o: Open, o': Open)
    requires InLanguage(log, gs, o) && OpenWord(o') == OpenWord(o)
    ensures InLanguage(log, gs, o')
  {
  }

  /** Over all runs: the callbacks are the gestures that have ended, in order, and the beginning
      of the one under way, whatever is read and however the configured times change. */
  lemma {:induction false} RunsAreGestures(level: Level, ticks: nat, held: nat, rs: seq<Reading>, active: bool)
    ensures var m := Machine(level, Idle, ticks, held);
      var o := MachineAfter(m, rs, active).open;
      Possible(o) && InLanguage(CallsOf(m, rs, active), GesturesOf(m, rs, active), o)
    decreases |rs|
  {
    var m := Machine(level, Idle, ticks, held);
    if rs != [] {
      hide InLanguage, Possible, TurnOf, EndedBy;
      var n := |rs| - 1;
      RunsAreGestures(level, ticks, held, rs[..n], active);
      var at := MachineAfter(m, rs[..n], active);
      TurnInLanguage(CallsOf(m, rs[..n], active), GesturesOf(m, rs[..n], active), at.open,
                     Debounced(at.level, rs[n].level, rs[n].ms).level == active,
                     if at.open.Idle? then at.ticks else Plus(at.ticks, rs[n].ms), at.held, Plus(at.held, rs[n].ms), rs[n].times);
    }
  }

  /** The debouncer runs independently of the gestures. */
  lemma {:induction false} LevelRuns(m: Machine, rs: seq<Reading>, active: bool)
    ensures MachineAfter(m, rs, active).level == LevelAfter(m.level, rs)
    decreases |rs|
  {
    if rs != [] {
      LevelRuns(m, rs[..|rs| - 1], active);
    }
  }

  function Total(rs: seq<Reading>): nat {
    if rs == [] then 0 else Total(rs[..|rs| - 1]) + rs[|rs| - 1].ms
  }

  /** A reading that differs from the debounced level and does not change it. */
  predicate Differs(l: Level, r: Reading) {
    r.level != l.level && Debounced(l, r.level, r.ms).level == l.level
  }

  /** From the j-th reading on, all differ from the debounced level, which stays. */
  predicate Streak(l: Level, rs: seq<Reading>, j: nat) {
    j <= |rs| && (j < |rs| ==>
      var n := |rs| - 1; Differs(LevelAfter(l, rs[..n]), rs[n]) && Streak(l, rs[..n], j))
  }

  ghost predicate InTime(rs: seq<Reading>) {
    forall k :: 0 <= k < |rs| ==> rs[k].ms <= 181
  }

  /** The time counted is the length of the longest such stretch. */
  lemma {:induction false} LongestStreak(l: Level, rs: seq<Reading>) returns (j: nat)
    requires l.cnt == 0 && InTime(rs)
    ensures Streak(l, rs, j) && LevelAfter(l, rs).cnt == Total(rs[j..]) < DEBOUNCE_MS
    ensures forall i: nat :: Streak(l, rs, i) ==> i >= j
    decreases |rs|
  {
    hide Debounced, Differs;
    if rs == [] {
      j := 0;
    } else {
      var n := |rs| - 1;
      var i := LongestStreak(l, rs[..n]);
      var was := LevelAfter(l, rs[..n]);
      Counted(was, rs[n]);
      if Differs(was, rs[n]) {
        j := i;
        assert rs[i..][..n - i] == rs[..n][i..];
      } else {
        j := |rs|;
        assert rs[j..] == [];
      }
    }
  }

  lemma Counted(l: Level, r: Reading)
    requires l.cnt < DEBOUNCE_MS && r.ms <= 181
    ensures Debounced(l, r.level, r.ms).cnt == if Differs(l, r) then l.cnt + r.ms else 0
    ensures Debounced(l, r.level, r.ms).cnt < DEBOUNCE_MS
  {
    Counts(l.cnt, r.ms);
  }

  lemma Counts(cnt: nat, ms: nat)
    requires cnt < DEBOUNCE_MS
    ensures ms <= 181 ==> (cnt + ms) % 256 == cnt + ms
  {
  }

  lemma {:induction false} LongerTotal(rs: seq<Reading>, i: nat, j: nat)
    requires i <= j <= |rs|
    ensures Total(rs[i..]) >= Total(rs[j..])
    decreases |rs|
  {
    if j < |rs| {
      var n := |rs| - 1;
      assert rs[i..][..n - i] == rs[..n][i..] && rs[j..][..n - j] == rs[..n][j..];
      LongerTotal(rs[..n], i, j);
    } else {
      assert rs[j..] == [];
    }
  }

  /** As long as calls come in time, the debounced level changes exactly when readings that
      differ from it, one after the other, add up to the threshold. */
  lemma ChangesIff(l: Level, rs: seq<Reading>, r: Reading)
    requires l.cnt == 0 && InTime(rs) && r.ms <= 181
    ensures LevelAfter(l, rs + [r]).level != LevelAfter(l, rs).level
       <==> r.level != LevelAfter(l, rs).level
            && exists j: nat :: Streak(l, rs, j) && Total(rs[j..]) + r.ms >= DEBOUNCE_MS
  {
    assert (rs + [r])[..|rs|] == rs;
    var j := LongestStreak(l, rs);
    Counts(LevelAfter(l, rs).cnt, r.ms);
    forall i: nat | Streak(l, rs, i) ensures Total(rs[i..]) <= Total(rs[j..]) {
      LongerTotal(rs, j, i);
    }
  }

  class Button {
    var ticks: nat
    var holdRepeatTicks: nat
    var repeatCount: nat
    var state: nat
    var activeLevel: bool
    var buttonLevel: bool
    var debounceCnt: nat

    /** Callbacks so far, and the gestures they make up. */
    ghost var log: seq<Callback>
    ghost var gestures: seq<Gesture>
    ghost var open: Open

    ghost predicate Valid()
      reads this
    {
      && ticks < 0x1_0000 && holdRepeatTicks < 0x1_0000 && repeatCount < 16 && debounceCnt < DEBOUNCE_MS
      && InLanguage(log, gestures, open)
      && match open
         case Idle => state == 0
         case Down => state == 1 && repeatCount == 1
         case Up(n) => state == 2 && n >= 1 && repeatCount == n % 16
         case DownAgain(n) => state == 3 && n >= 1 && repeatCount == (n + 1) % 16
         case Holding(_) => state == 5
    }

    constructor (level: bool, activeLevel: bool)
      ensures Valid() && log == [] && Debouncing() == Level(level, 0) && this.activeLevel == activeLevel
    {
      ticks, holdRepeatTicks, repeatCount, state, debounceCnt := 0, 0, 0, 0, 0;
      buttonLevel, this.activeLevel := level, activeLevel;
      log, gestures, open := [], [], Idle;
    }

    function Debouncing(): Level
      reads this`buttonLevel, this`debounceCnt
      requires debounceCnt < 256
    {
      Level(buttonLevel, debounceCnt)
    }

    ghost function Now(): Machine
      reads this`buttonLevel, this`debounceCnt, this`open, this`ticks, this`holdRepeatTicks
      requires debounceCnt < 256
    {
      Machine(Debouncing(), open, ticks, holdRepeatTicks)
    }

    method Debounce(level: bool, ms: nat)
      requires Valid()
      modifies this`buttonLevel, this`debounceCnt
      ensures Valid() && Debouncing() == Debounced(old(Debouncing()), level, ms)
    {
      hide InLanguage;
      if level != buttonLevel {
        debounceCnt := (debounceCnt + ms) % 256;
        if debounceCnt >= DEBOUNCE_MS {
          buttonLevel := level;
          debounceCnt := 0;
        }
      } else {
        debounceCnt := 0;
      }
    }

    /** Calls back, going on with the gesture under way. */
    ghost method GoOn(c: Callback, o: Open)
      requires InLanguage(log, gestures, open) && OpenWord(o) == OpenWord(open) + [c]
      modifies this`log, this`open
      ensures InLanguage(log, gestures, open) && open == o && log == old(log) + [c]
    {
      GoesOn(log, gestures, open, c, o);
      log, open := log + [c], o;
    }

    /** Ends the gesture under way. */
    ghost method EndGesture(cs: seq<Callback>, g: Gesture)
      requires InLanguage(log, gestures, open) && Word(g) == OpenWord(open) + cs && Proper(g)
      modifies this`log, this`open, this`gestures
      ensures InLanguage(log, gestures, open) && open == Idle && log == old(log) + cs && gestures == old(gestures) + [g]
    {
      GestureEnds(log, gestures, open, cs, g);
      log, gestures, open := log + cs, gestures + [g], Idle;
    }

    /** One call: `level` is read from the pin, `ms` have passed since the last call. */
    method Handle(level: bool, ms: nat, times: Times)
      requires Valid()
      modifies this
      ensures Valid() && activeLevel == old(activeLevel)
      ensures var r := Reading(level, ms, times);
        var turn := TurnAt(old(Now()), r, activeLevel);
        Now() == Moved(old(Now()), r, activeLevel)
        && log == old(log) + turn.calls && gestures == old(gestures) + EndedBy(turn)
    {
      hide InLanguage;
      if state > 0 {
        ticks := (ticks + ms) % 0x1_0000;
      }
      Debounce(level, ms);
      Advance(ms, times);
    }

    /** The state machine, on the debounced level. */
    method Advance(ms: nat, times: Times)
      requires Valid()
      modifies this`ticks, this`holdRepeatTicks, this`repeatCount, this`state, this`log, this`open, this`gestures
      ensures Valid()
      ensures var turn := TurnOf(old(open), buttonLevel == activeLevel, old(ticks), old(holdRepeatTicks),
                                 Plus(old(holdRepeatTicks), ms), times);
        && open == turn.open && ticks == turn.ticks && holdRepeatTicks == turn.held
        && log == old(log) + turn.calls && gestures == old(gestures) + EndedBy(turn)
    {
      hide InLanguage;
      match state
      case 0 =>
        if buttonLevel == activeLevel {
          Press();
        }
      case 1 =>
        if buttonLevel != activeLevel {
          FirstRelease();
        } else if ticks > times.longMs {
          StartHold();
        }
      case 2 =>
        if buttonLevel == activeLevel {
          PressAgain();
        } else if ticks > times.shortMs {
          TellClick();
        }
      case 3 =>
        if buttonLevel != activeLevel {
          ReleaseAgain(times);
        }
      case 5 =>
        if buttonLevel == activeLevel {
          holdRepeatTicks := (holdRepeatTicks + ms) % 0x1_0000;
          if holdRepeatTicks > times.holdMs {
            GoOnHolding();
          }
        } else {
          EndHold();
        }
    }

    method Press()
      requires Valid() && open == Idle
      modifies this`ticks, this`repeatCount, this`state, this`log, this`open
      ensures Valid() && open == Down && log == old(log) + [PressDown] && ticks == 0
    {
      GoOn(PressDown, Down);
      ticks, repeatCount, state := 0, 1, 1;
    }

    method FirstRelease()
      requires Valid() && open == Down
      modifies this`ticks, this`state, this`log, this`open
      ensures Valid() && open == Up(1) && log == old(log) + [Release] && ticks == 0
    {
      RepeatMore(Release, 0);
      GoOn(Release, Up(1));
      ticks, state := 0, 2;
    }

    method StartHold()
      requires Valid() && open == Down
      modifies this`state, this`log, this`open
      ensures Valid() && open == Holding(0) && log == old(log) + [HoldStart]
    {
      GoOn(HoldStart, Holding(0));
      state := 5;
    }

    /** A second press is not called back. */
    method PressAgain()
      requires Valid() && open.Up?
      modifies this`ticks, this`repeatCount, this`state, this`open
      ensures Valid() && open == DownAgain(old(open).releases) && ticks == 0
    {
      repeatCount := (repeatCount + 1) % 16;
      ticks, state := 0, 3;
      open := DownAgain(open.releases);
    }

    /** The pause after a release: as many presses as four bits count are told. */
    method TellClick()
      requires Valid() && open.Up?
      modifies this`state, this`log, this`open, this`gestures
      ensures Valid() && open == Idle
      ensures var k := Told(old(open).releases);
        log == old(log) + (if k.Some? then [Click(k.value)] else [])
        && gestures == old(gestures) + [Pressed(old(open).releases, k)]
    {
      ghost var n := open.releases;
      if repeatCount == 1 || repeatCount == 2 || repeatCount == 3 || repeatCount == 4 || repeatCount == 5 {
        EndGesture([Click(repeatCount)], Pressed(n, Some(repeatCount)));
      } else {
        assert Word(Pressed(n, None)) == OpenWord(open) + [];
        EndGesture([], Pressed(n, None));
      }
      state := 0;
    }

    method ReleaseAgain(times: Times)
      requires Valid() && open.DownAgain?
      modifies this`ticks, this`state, this`log, this`open, this`gestures
      ensures Valid() && log == old(log) + [Release]
      ensures var n := old(open).releases + 1;
        if old(ticks) < times.shortMs then open == Up(n) && ticks == 0 && gestures == old(gestures)
        else open == Idle && ticks == old(ticks) && gestures == old(gestures) + [Pressed(n, None)]
    {
      ghost var n := open.releases;
      RepeatMore(Release, n);
      if ticks < times.shortMs {
        GoOn(Release, Up(n + 1));
        ticks, state := 0, 2;
      } else {
        assert Word(Pressed(n + 1, None)) == OpenWord(open) + [Release];
        EndGesture([Release], Pressed(n + 1, None));
        state := 0;
      }
    }

    method GoOnHolding()
      requires Valid() && open.Holding?
      modifies this`holdRepeatTicks, this`log, this`open
      ensures Valid() && open == Holding(old(open).holds + 1) && log == old(log) + [Hold] && holdRepeatTicks == 0
    {
      RepeatMore(Hold, open.holds);
      GoOn(Hold, Holding(open.holds + 1));
      holdRepeatTicks := 0;
    }

    method EndHold()
      requires Valid() && open.Holding?
      modifies this`state, this`log, this`open, this`gestures
      ensures Valid() && open == Idle && log == old(log) + [Release]
      ensures gestures == old(gestures) + [Held(old(open).holds)]
    {
      assert Word(Held(open.holds)) == OpenWord(open) + [Release];
      EndGesture([Release], Held(open.holds));
      state := 0;
    }
  }

  /** A run of the handler is a run of the machine: its callbacks, the gestures they end, the
      gesture under way and the debounced level are the machine's. */
  method Run(b: Button, readings: seq<Reading>)
    requires b.Valid()
    modifies b
    ensures b.Valid() && b.activeLevel == old(b.activeLevel)
    ensures b.Now() == MachineAfter(old(b.Now()), readings, b.activeLevel)
    ensures b.log == old(b.log) + CallsOf(old(b.Now()), readings, b.activeLevel)
    ensures b.gestures == old(b.gestures) + GesturesOf(old(b.Now()), readings, b.activeLevel)
  {
    hide InLanguage, Moved, TurnAt, EndedBy;
    ghost var m, active := b.Now(), b.activeLevel;
    for i := 0 to |readings|
      invariant b.Valid() && b.activeLevel == active && b.Now() == MachineAfter(m, readings[..i], active)
      invariant b.log == old(b.log) + CallsOf(m, readings[..i], active)
      invariant b.gestures == old(b.gestures) + GesturesOf(m, readings[..i], active)
    {
      assert readings[..i + 1][..i] == readings[..i];
      ghost var turn := TurnAt(b.Now(), readings[i], active);
      Assoc(old(b.log), CallsOf(m, readings[..i], active), turn.calls);
      Assoc(old(b.gestures), GesturesOf(m, readings[..i], active), EndedBy(turn));
      b.Handle(readings[i].level, readings[i].ms, readings[i].times);
    }
    assert readings[..|readings|] == readings;
  }
}
