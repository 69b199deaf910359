/**
 * One run of `xit <subcommand> [-p primary] [-t target]` once the report has
 * been read: select the outputs, then decide what to hand to `xrandr`.
 */
module Cli {
  import opened Wrappers
  import opened Displays
  import S = Selection
  import C = Commands
  import X = Xrandr
  import D = Decimal

  datatype Subcommand = Mirror | Toggle | Place(direction: C.Direction) | Reset | Off

  function Run(cmd: Subcommand, t: Table, primaryOpt: Option<Id>, targetOpt: Option<Id>): (r: C.Outcome)
    ensures r.Crash? ==> cmd == Mirror
    ensures S.Select(t, primaryOpt, targetOpt).Ok? && cmd.Place? ==> r.Spawn?
  {
    match S.Select(t, primaryOpt, targetOpt)
    case Err(e) => C.Exit(e.Message())
    case Ok(s) =>
      match cmd
      case Mirror => C.MirrorCommand(s)
      case Toggle => C.ToggleCommand(s)
      case Place(d) => C.Spawn(X.Words(C.PlaceArgsAsWritten(d, s)))
      case Reset => C.Spawn(X.Words(C.ResetArgs(s)))
      case Off => C.Spawn(X.Words(C.OffArgs(s)))
  }

  /**
   * Nothing is handed to `xrandr` after an error: a failed selection prints
   * its message, whatever the subcommand, and toggle with both or neither
   * output native prints its own.
   */
  lemma RunStartsNothingOnError(cmd: Subcommand, t: Table, primaryOpt: Option<Id>, targetOpt: Option<Id>)
    ensures S.Select(t, primaryOpt, targetOpt).Err? ==>
      Run(cmd, t, primaryOpt, targetOpt) == C.Exit(S.Select(t, primaryOpt, targetOpt).error.Message())
    ensures |t| == 0 ==> Run(cmd, t, primaryOpt, targetOpt) == C.Exit("no displays detected")
    ensures cmd == Toggle && S.Select(t, primaryOpt, targetOpt).Ok? ==>
      var s := S.Select(t, primaryOpt, targetOpt).value;
      (Run(cmd, t, primaryOpt, targetOpt).Spawn? <==> s.dp.native != s.dt.native)
  {
    if cmd == Toggle && S.Select(t, primaryOpt, targetOpt).Ok? {
      C.ToggleRequests(S.Select(t, primaryOpt, targetOpt).value);
    }
  }

  /**
   * A placement after a successful selection hands `xrandr` the list as the
   * code writes it: for left, right, top and bottom that is the corrected
   * list, which auto-configures the target and positions it next to the
   * primary; for above and below it is a command line `xrandr` refuses.
   */
  lemma RunPlace(d: C.Direction, t: Table, primaryOpt: Option<Id>, targetOpt: Option<Id>)
    requires S.Select(t, primaryOpt, targetOpt).Ok?
    ensures var s := S.Select(t, primaryOpt, targetOpt).value;
      var r := Run(Place(d), t, primaryOpt, targetOpt);
      && r.Spawn?
      && (d == C.Above || d == C.Below ==> X.Request(r.args) == None)
      && (d != C.Above && d != C.Below ==>
            r.args == X.Words(C.PlaceArgs(d, s))
            && X.Request(r.args).Some?
            && X.ActionsOn(X.Request(r.args).value, Some(s.target)) == [X.Auto, X.Position(C.Relation(d), s.primary)])
  {
    var s := S.Select(t, primaryOpt, targetOpt).value;
    C.PlaceAsWrittenRefused(d, s);
    C.PlaceRequests(d, s);
  }

  /** A laptop panel "A" at 1920x1080 and a connected projector "B" whose only mode is 1280x720. */
  function Laptop(): Table {
    [("A", Display(0, true, true, Some(1920), Some(1080), [Mode(1920, 1080)])),
     ("B", Display(1, true, false, None, None, [Mode(1280, 720)]))]
  }

  /** Without overrides, A (index 0) is the primary and B the target. */
  lemma LaptopSelection()
    ensures S.Select(Laptop(), None, None) == Ok(S.Selection("A", "B", Laptop()[0].1, Laptop()[1].1))
  {
    var t := Laptop();
    assert S.FirstKey(t, S.IsPrimaryCandidate) == Some("A") by {
      assert S.IsPrimaryCandidate(t[0]);
    }
    assert S.FirstKey(t, S.IsTargetCandidate("A")) == Some("B") by {
      assert !S.IsTargetCandidate("A")(t[0]) && S.IsTargetCandidate("A")(t[1]);
    }
  }

  /** B's only mode fits inside A's geometry and keeps its own aspect, so mirror picks it. */
  lemma LaptopMode()
    ensures C.ChooseMode(Laptop()[0].1, Laptop()[1].1) == Mode(1280, 720)
  {
    var a, b := Laptop()[0].1, Laptop()[1].1;
    C.ChooseModeOrder(a, b);
    assert C.FitsWithAspectOf(a, b.modes[0])(b.modes[0]);
  }

  lemma LaptopNames()
    ensures D.GeometryName(Laptop()[0].1) == "1920x1080"
    ensures D.ModeName(Mode(1280, 720)) == "1280x720"
  {
    assert D.Digits(1920) == "1920" && D.Digits(1080) == "1080";
    assert D.Digits(1280) == "1280" && D.Digits(720) == "720";
  }

  /** Mirroring the laptop onto the projector keeps A at 1920x1080 and shows B at 1280x720, same aspect. */
  lemma MirrorLaptop()
    ensures Run(Mirror, Laptop(), None, None)
      == C.Spawn(X.Words(["--output", "A", "--mode", "1920x1080", "--output", "B", "--mode", "1280x720", "--scale"])
                 + [X.ScaleFactor(Mode(1920, 1080), Mode(1280, 720))])
    ensures C.SameAspect(Mode(1920, 1080), Mode(1280, 720))
  {
    LaptopSelection();
    LaptopMode();
    LaptopNames();
  }

  /** `xit off` on the same table switches B off and auto-configures A. */
  lemma OffLaptop()
    ensures Run(Off, Laptop(), None, None)
      == C.Spawn(X.Words(["--output", "B", "--off", "--output", "A", "--auto"]))
  {
    LaptopSelection();
  }
}
