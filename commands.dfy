/**
 * The subcommands' decisions and the `xrandr` argument lists they build from
 * a successful selection.
 */
module Commands {
  import opened Wrappers
  import opened Sequences
  import opened Displays
  import opened Selection
  import opened Decimal
  import opened Xrandr

  /**
   * How a subcommand ends: `xrandr` is started with `args`, the tool prints
   * `message` and exits with status 1, or an uncaught exception ends it.
   */
  datatype Outcome = Spawn(args: seq<Arg>) | Exit(message: string) | Crash(message: string)

  // ----- off -----

  /** `off`: switch the target off and auto-configure the primary. */
  function OffArgs(s: Selection): seq<string> {
    ["--output", s.target, "--off", "--output", s.primary, "--auto"]
  }

  lemma OffRequests(s: Selection)
    ensures Request(Words(OffArgs(s))).Some?
    ensures var ds := Request(Words(OffArgs(s))).value;
      && ActionsOn(ds, Some(s.target)) == [Off] + (if s.primary == s.target then [Auto] else [])
      && ActionsOn(ds, Some(s.primary)) == (if s.primary == s.target then [Off] else []) + [Auto]
      && ActionsOn(ds, None) == []
      && forall o :: o != Some(s.target) && o != Some(s.primary) ==> ActionsOn(ds, o) == []
  {
    var t, p := s.target, s.primary;
    assert Words(OffArgs(s))
        == [Word("--output"), Word(t)] + ([Word("--off")] + ([Word("--output"), Word(p)] + ([Word("--auto")] + [])));
    ReadOutput(t, [Word("--off")] + ([Word("--output"), Word(p)] + ([Word("--auto")] + [])), None);
    ReadOff([Word("--output"), Word(p)] + ([Word("--auto")] + []), t);
    ReadOutput(p, [Word("--auto")] + [], Some(t));
    ReadAuto([], Some(p));
    var ds := [Directive(Some(t), Off), Directive(Some(p), Auto)];
    assert [ds[1]] + [] == ds[1..] && [ds[0]] + ds[1..] == ds;
    assert Request(Words(OffArgs(s))) == Some(ds);
    forall o | o != Some(t) && o != Some(p) ensures ActionsOn(ds, o) == [] {
      ActionsOnAbsent(ds, o);
    }
  }

  // ----- mirror -----

  /** A mode fits when it is no larger than the primary's current geometry; never when that is unknown. */
  predicate Fits(m: Mode, dp: Display) {
    dp.width.Some? && dp.height.Some? && m.width <= dp.width.value && m.height <= dp.height.value
  }

  /**
   * Whether `m` has the aspect of `m0`, compared as the tool compares the
   * quotients of width by height on JavaScript numbers. For sizes below 2^17,
   * equal quotients of positive sizes are equal fractions;
   * a zero height gives `Infinity` for a positive width, which equals only
   * another `Infinity`, and `NaN` for a zero width, which equals nothing.
   */
  predicate SameAspect(m: Mode, m0: Mode) {
    if m.height > 0 && m0.height > 0 then m.width * m0.height == m0.width * m.height
    else m.height == 0 && m0.height == 0 && m.width > 0 && m0.width > 0
  }

  function FitsIn(dp: Display): Mode -> bool {
    m => Fits(m, dp)
  }

  function HasAspectOf(m0: Mode): Mode -> bool {
    m => SameAspect(m, m0)
  }

  function FitsWithAspectOf(dp: Display, m0: Mode): Mode -> bool {
    m => Fits(m, dp) && SameAspect(m, m0)
  }

  /** The mode the target mirrors in: the first fitting mode with the first mode's aspect, else the first fitting mode, else the first mode. */
  function ChooseMode(dp: Display, dt: Display): (m: Mode)
    requires |dt.modes| > 0
    ensures m in dt.modes
  {
    var lmatches := Filter(dt.modes, FitsIn(dp));
    var amatches := Filter(lmatches, HasAspectOf(dt.modes[0]));
    if amatches != [] then amatches[0]
    else if lmatches != [] then lmatches[0]
    else dt.modes[0]
  }

  /**
   * The fallback order of the mirrored mode: the first of the target's modes
   * that fits and keeps the aspect of its first mode; failing that, the first
   * that fits; failing that, the first mode.
   */
  lemma ChooseModeOrder(dp: Display, dt: Display)
    requires |dt.modes| > 0
    ensures (exists i :: 0 <= i < |dt.modes| && Fits(dt.modes[i], dp) && SameAspect(dt.modes[i], dt.modes[0]))
      ==> exists i :: IsFirst(dt.modes, i, FitsWithAspectOf(dp, dt.modes[0])) && ChooseMode(dp, dt) == dt.modes[i]
    ensures (forall i :: 0 <= i < |dt.modes| ==> !(Fits(dt.modes[i], dp) && SameAspect(dt.modes[i], dt.modes[0])))
      && (exists i :: 0 <= i < |dt.modes| && Fits(dt.modes[i], dp))
      ==> exists i :: IsFirst(dt.modes, i, FitsIn(dp)) && ChooseMode(dp, dt) == dt.modes[i]
    ensures (forall i :: 0 <= i < |dt.modes| ==> !Fits(dt.modes[i], dp)) ==> ChooseMode(dp, dt) == dt.modes[0]
  {
    var m0 := dt.modes[0];
    var lmatches := Filter(dt.modes, FitsIn(dp));
    FilterFilter(dt.modes, FitsIn(dp), HasAspectOf(m0), FitsWithAspectOf(dp, m0));
    FilterHead(dt.modes, FitsWithAspectOf(dp, m0));
    FilterHead(dt.modes, FitsIn(dp));
    assert forall i :: 0 <= i < |dt.modes| ==>
      (FitsWithAspectOf(dp, m0)(dt.modes[i]) <==> Fits(dt.modes[i], dp) && SameAspect(dt.modes[i], m0));
  }

  /** The text printed by the exception when a display has no modes. */
  const NoModeMessage := "TypeError: Cannot read properties of undefined (reading 'width')"

  /** `mirror`: the primary keeps its current geometry, the target takes the chosen mode and is scaled. */
  function MirrorArgs(s: Selection): seq<Arg>
    requires |s.dp.modes| > 0 && |s.dt.modes| > 0
  {
    Words(["--output", s.primary, "--mode", GeometryName(s.dp),
           "--output", s.target, "--mode", ModeName(ChooseMode(s.dp, s.dt)), "--scale"])
      + [ScaleFactor(s.dp.modes[0], s.dt.modes[0])]
  }

  /** Reading the first mode of a display without modes throws before anything is started. */
  function MirrorCommand(s: Selection): (r: Outcome)
    ensures r.Crash? <==> |s.dp.modes| == 0 || |s.dt.modes| == 0
  {
    if |s.dp.modes| == 0 || |s.dt.modes| == 0 then Crash(NoModeMessage)
    else Spawn(MirrorArgs(s))
  }

  /** The reading of a mirror command line, for any names, mode names and scale. */
  lemma ReadMirror(p: Id, g: string, t: Id, n: string, pm: Mode, tm: Mode)
    ensures var args := Words(["--output", p, "--mode", g, "--output", t, "--mode", n, "--scale"]) + [ScaleFactor(pm, tm)];
      Request(args) == Some([Directive(Some(p), SetMode(g)), Directive(Some(t), SetMode(n)), Directive(Some(t), Scale(pm, tm))])
  {
    var r3 := [Word("--scale"), ScaleFactor(pm, tm)] + [];
    var r2 := [Word("--mode"), Word(n)] + r3;
    var r1 := [Word("--output"), Word(t)] + r2;
    var r0 := [Word("--mode"), Word(g)] + r1;
    assert Words(["--output", p, "--mode", g, "--output", t, "--mode", n, "--scale"]) + [ScaleFactor(pm, tm)]
        == [Word("--output"), Word(p)] + r0;
    ReadOutput(p, r0, None);
    ReadMode(g, r1, p);
    ReadOutput(t, r2, Some(p));
    ReadMode(n, r3, t);
    ReadScale(pm, tm, [], t);
    var d0, d1, d2 := Directive(Some(p), SetMode(g)), Directive(Some(t), SetMode(n)), Directive(Some(t), Scale(pm, tm));
    assert Interpret([], Some(t)) == Some([]);
    assert [d2] + [] == [d2] && [d1] + [d2] == [d1, d2] && [d0] + [d1, d2] == [d0, d1, d2];
  }

  lemma MirrorRequests(s: Selection)
    requires |s.dp.modes| > 0 && |s.dt.modes| > 0
    ensures Request(MirrorArgs(s)).Some?
    ensures var ds := Request(MirrorArgs(s)).value;
      var forPrimary := [SetMode(GeometryName(s.dp))];
      var forTarget := [SetMode(ModeName(ChooseMode(s.dp, s.dt))), Scale(s.dp.modes[0], s.dt.modes[0])];
      && ActionsOn(ds, Some(s.primary)) == forPrimary + (if s.primary == s.target then forTarget else [])
      && ActionsOn(ds, Some(s.target)) == (if s.primary == s.target then forPrimary else []) + forTarget
      && ActionsOn(ds, None) == []
      && forall o :: o != Some(s.target) && o != Some(s.primary) ==> ActionsOn(ds, o) == []
  {
    var t, p := s.target, s.primary;
    var g, n := GeometryName(s.dp), ModeName(ChooseMode(s.dp, s.dt));
    ReadMirror(p, g, t, n, s.dp.modes[0], s.dt.modes[0]);
    var ds := [Directive(Some(p), SetMode(g)), Directive(Some(t), SetMode(n)),
               Directive(Some(t), Scale(s.dp.modes[0], s.dt.modes[0]))];
    assert MirrorArgs(s) == Words(["--output", p, "--mode", g, "--output", t, "--mode", n, "--scale"])
      + [ScaleFactor(s.dp.modes[0], s.dt.modes[0])];
    assert Request(MirrorArgs(s)) == Some(ds);
    assert ds[1..] == ds[1..2] + ds[2..] && ds[2..][1..] == [];
    var sc := Scale(s.dp.modes[0], s.dt.modes[0]);
    assert ActionsOn(ds[2..], Some(t)) == [sc];
    assert ActionsOn(ds[1..], Some(t)) == [SetMode(n), sc];
    assert ActionsOn(ds[2..], None) == [] && ActionsOn(ds[1..], None) == [] && ActionsOn(ds, None) == [];
    forall o | o != Some(t) && o != Some(p) ensures ActionsOn(ds, o) == [] {
      ActionsOnAbsent(ds, o);
    }
    if p == t {
      assert ActionsOn(ds, Some(p)) == [SetMode(g)] + [SetMode(n), sc];
    } else {
      assert ActionsOn(ds[1..], Some(p)) == [];
      assert ActionsOn(ds, Some(p)) == [SetMode(g)];
    }
  }

  // ----- toggle -----

  const AmbiguousState := "I don't understand the current state -- try 'xit reset' first"

  /** `toggle`: switch on the output that is not native and off the one that is. */
  function ToggleCommand(s: Selection): Outcome {
    if !s.dp.native && s.dt.native then
      Spawn(Words(["--output", s.primary, "--auto", "--output", s.target, "--off"]))
    else if !s.dt.native && s.dp.native then
      Spawn(Words(["--output", s.target, "--auto", "--output", s.primary, "--off"]))
    else Exit(AmbiguousState)
  }

  /**
   * Toggle starts `xrandr` exactly when one of the two outputs is native;
   * the native one is then switched off and the other auto-configured.
   */
  lemma ToggleRequests(s: Selection)
    ensures ToggleCommand(s).Spawn? <==> s.dp.native != s.dt.native
    ensures !ToggleCommand(s).Spawn? ==> ToggleCommand(s) == Exit(AmbiguousState)
    ensures ToggleCommand(s).Spawn? && s.primary != s.target ==>
      Request(ToggleCommand(s).args).Some? &&
      var ds := Request(ToggleCommand(s).args).value;
      && ActionsOn(ds, Some(s.primary)) == [if s.dp.native then Off else Auto]
      && ActionsOn(ds, Some(s.target)) == [if s.dt.native then Off else Auto]
      && ActionsOn(ds, None) == []
      && forall o :: o != Some(s.target) && o != Some(s.primary) ==> ActionsOn(ds, o) == []
  {
    if s.dp.native != s.dt.native {
      var on, off := if s.dt.native then s.primary else s.target, if s.dt.native then s.target else s.primary;
      var r1 := [Word("--off")] + [];
      var r0 := [Word("--auto")] + ([Word("--output"), Word(off)] + r1);
      assert ToggleCommand(s).args == [Word("--output"), Word(on)] + r0;
      ReadOutput(on, r0, None);
      ReadAuto([Word("--output"), Word(off)] + r1, Some(on));
      ReadOutput(off, r1, Some(on));
      ReadOff([], off);
      var ds := [Directive(Some(on), Auto), Directive(Some(off), Off)];
      assert [ds[1]] + [] == ds[1..] && [ds[0]] + ds[1..] == ds;
      assert Request(ToggleCommand(s).args) == Some(ds);
      forall o | o != Some(on) && o != Some(off) ensures ActionsOn(ds, o) == [] {
        ActionsOnAbsent(ds, o);
      }
    }
  }

  // ----- left, right, top, bottom, above, below -----

  datatype Direction = Left | Right | Top | Bottom | Above | Below

  /** The subcommand's name as typed. */
  function DirectionName(d: Direction): string {
    match d
    case Left => "left"
    case Right => "right"
    case Top => "top"
    case Bottom => "bottom"
    case Above => "above"
    case Below => "below"
  }

  /** The tool's table of relations: left, right, top and bottom have one; above and below are missing from it. */
  function RelationLookup(d: Direction): Option<string> {
    match d
    case Left => Some("left-of")
    case Right => Some("right-of")
    case Top => Some("above")
    case Bottom => Some("below")
    case _ => None
  }

  /** The relation as written: a missed lookup falls back on the still-undefined variable itself. */
  function RelationAsWritten(d: Direction): string {
    match RelationLookup(d)
    case Some(r) => r
    case None => "undefined"
  }

  /** The relation as intended: `above` and `below` are already relation names and pass through. */
  function Relation(d: Direction): (r: string)
    ensures IsRelation(r)
    ensures RelationLookup(d).Some? ==> r == RelationLookup(d).value
    ensures RelationLookup(d).None? ==> r == DirectionName(d)
  {
    match RelationLookup(d)
    case Some(r) => r
    case None => DirectionName(d)
  }

  function PlaceArgsAsWritten(d: Direction, s: Selection): seq<string> {
    ["--output", s.target, "--auto", "--" + RelationAsWritten(d), s.primary]
  }

  function PlaceArgs(d: Direction, s: Selection): seq<string> {
    ["--output", s.target, "--auto", "--" + Relation(d), s.primary]
  }

  /**
   * Every direction auto-configures the target and places it next to the
   * primary; the primary, named only as the anchor, and every other output
   * are asked nothing.
   */
  lemma PlaceRequests(d: Direction, s: Selection)
    ensures Request(Words(PlaceArgs(d, s))).Some?
    ensures var ds := Request(Words(PlaceArgs(d, s))).value;
      && ActionsOn(ds, Some(s.target)) == [Auto, Position(Relation(d), s.primary)]
      && forall o :: o != Some(s.target) ==> ActionsOn(ds, o) == []
  {
    var t, p, rel := s.target, s.primary, Relation(d);
    var r1 := [Word("--" + rel), Word(p)] + [];
    var r0 := [Word("--auto")] + r1;
    assert Words(PlaceArgs(d, s)) == [Word("--output"), Word(t)] + r0;
    ReadOutput(t, r0, None);
    ReadAuto(r1, Some(t));
    ReadPosition(rel, p, [], t);
    var ds := [Directive(Some(t), Auto), Directive(Some(t), Position(rel, p))];
    assert [ds[1]] + [] == ds[1..] && [ds[0]] + ds[1..] == ds;
    assert Request(Words(PlaceArgs(d, s))) == Some(ds);
    forall o | o != Some(t) ensures ActionsOn(ds, o) == [] {
      ActionsOnAbsent(ds, o);
    }
  }

  /**
   * As written, `above` and `below` send the option "--undefined", which
   * `xrandr` refuses, while the other four directions are unaffected.
   */
  lemma PlaceAsWrittenRefused(d: Direction, s: Selection)
    ensures d == Above || d == Below ==> Request(Words(PlaceArgsAsWritten(d, s))) == None
    ensures d != Above && d != Below ==> PlaceArgsAsWritten(d, s) == PlaceArgs(d, s)
  {
    if d == Above || d == Below {
      var t := s.target;
      var a := Words(PlaceArgsAsWritten(d, s));
      var r0 := a[2..];
      assert a == [Word("--output"), Word(t)] + r0;
      ReadOutput(t, r0, None);
      ReadAuto(r0[1..], Some(t));
      assert r0 == [Word("--auto")] + r0[1..];
      var u := "--undefined";
      assert r0[1..][0] == Word(u);
      assert u[2..] == "undefined" && !IsRelation(u[2..]);
      assert Interpret(r0[1..], Some(t)) == None;
    }
  }

  // ----- reset -----

  /** `reset`: auto-configure every output, and switch the target off when there is one. */
  function ResetArgs(s: Selection): seq<string> {
    if s.target == "" then ["--auto"]
    else ["--auto", "--output", s.target, "--off"]
  }

  /**
   * After a successful selection the target is never empty, so reset always
   * auto-configures every output and then switches the target off.
   */
  lemma ResetRequests(t: Table, primaryOpt: Option<Id>, targetOpt: Option<Id>)
    requires Select(t, primaryOpt, targetOpt).Ok?
    ensures var s := Select(t, primaryOpt, targetOpt).value;
      && ResetArgs(s) == ["--auto", "--output", s.target, "--off"]
      && Request(Words(ResetArgs(s))).Some?
      && ActionsOn(Request(Words(ResetArgs(s))).value, None) == [Auto]
      && ActionsOn(Request(Words(ResetArgs(s))).value, Some(s.target)) == [Off]
      && forall o :: o != None && o != Some(s.target) ==> ActionsOn(Request(Words(ResetArgs(s))).value, o) == []
  {
    var s := Select(t, primaryOpt, targetOpt).value;
    var r0 := [Word("--output"), Word(s.target)] + ([Word("--off")] + []);
    assert Words(ResetArgs(s)) == [Word("--auto")] + r0;
    ReadAuto(r0, None);
    ReadOutput(s.target, [Word("--off")] + [], None);
    ReadOff([], s.target);
    var ds := [Directive(None, Auto), Directive(Some(s.target), Off)];
    assert [ds[1]] + [] == ds[1..] && [ds[0]] + ds[1..] == ds;
    assert Request(Words(ResetArgs(s))) == Some(ds);
    forall o | o != None && o != Some(s.target) ensures ActionsOn(ds, o) == [] {
      ActionsOnAbsent(ds, o);
    }
  }
}
