/**
 * The part of `xrandr`'s command-line grammar that the tool's argument lists
 * use, read as the per-output actions a command requests. It is the reference
 * the argument builders are proved against: `--output NAME` selects an
 * output, and the options after it (`--auto`, `--off`, `--mode NAME`,
 * `--scale XxY`, `--left-of`/`--right-of`/`--above`/`--below NAME`) apply to
 * that output; `--auto` given before any `--output` applies to every
 * connected output, and the other per-output options are refused there, as
 * is any option the grammar does not know.
 */
module Xrandr {
  import opened Wrappers
  import opened Displays

  /**
   * One word of a command line. The `--scale` value is kept symbolic: it is
   * the quotient of the primary's and the target's first-mode aspect ratios
   * followed by "x1", written by floating-point division and JavaScript's
   * number formatting.
   */
  datatype Arg = Word(text: string) | ScaleFactor(primaryNative: Mode, targetNative: Mode)

  /** A list of plain words as command-line arguments. */
  function Words(ss: seq<string>): (r: seq<Arg>)
    ensures |r| == |ss|
    ensures forall i :: 0 <= i < |ss| ==> r[i] == Word(ss[i])
  {
    if ss == [] then [] else [Word(ss[0])] + Words(ss[1..])
  }

  /** What a command asks of an output. */
  datatype Action =
    | Auto
    | Off
    | SetMode(name: string)
    | Position(relation: string, anchor: Id)
    | Scale(primaryNative: Mode, targetNative: Mode)

  /** An action and the output it applies to; `None` stands for every output. */
  datatype Directive = Directive(output: Option<Id>, action: Action)

  /** The relative-position options, without their leading "--". */
  predicate IsRelation(r: string) {
    r == "left-of" || r == "right-of" || r == "above" || r == "below"
  }

  function Prepend(d: Directive, rest: Option<seq<Directive>>): (r: Option<seq<Directive>>)
    ensures r.Some? <==> rest.Some?
  {
    match rest
    case None => None
    case Some(ds) => Some([d] + ds)
  }

  /** The directives of `args` when `current` is the output selected so far; `None` if refused. */
  function Interpret(args: seq<Arg>, current: Option<Id>): Option<seq<Directive>>
    decreases |args|
  {
    if args == [] then Some([])
    else if args[0] == Word("--output") then
      if |args| >= 2 && args[1].Word? then Interpret(args[2..], Some(args[1].text)) else None
    else if args[0] == Word("--auto") then
      Prepend(Directive(current, Auto), Interpret(args[1..], current))
    else if current.None? then None
    else if args[0] == Word("--off") then
      Prepend(Directive(current, Off), Interpret(args[1..], current))
    else if |args| < 2 then None
    else if args[0] == Word("--mode") && args[1].Word? then
      Prepend(Directive(current, SetMode(args[1].text)), Interpret(args[2..], current))
    else if args[0] == Word("--scale") && args[1].ScaleFactor? then
      Prepend(Directive(current, Scale(args[1].primaryNative, args[1].targetNative)), Interpret(args[2..], current))
    else if args[0].Word? && |args[0].text| > 2 && args[0].text[..2] == "--"
         && IsRelation(args[0].text[2..]) && args[1].Word? then
      Prepend(Directive(current, Position(args[0].text[2..], args[1].text)), Interpret(args[2..], current))
    else None
  }

  /** The directives a whole command line requests, or `None` if `xrandr` refuses it. */
  function Request(args: seq<Arg>): Option<seq<Directive>> {
    Interpret(args, None)
  }

  // One lemma per option, each reading the first option of a command line.

  lemma ReadOutput(name: Id, rest: seq<Arg>, current: Option<Id>)
    ensures Interpret([Word("--output"), Word(name)] + rest, current) == Interpret(rest, Some(name))
  {
  }

  lemma ReadAuto(rest: seq<Arg>, current: Option<Id>)
    ensures Interpret([Word("--auto")] + rest, current)
         == Prepend(Directive(current, Auto), Interpret(rest, current))
  {
  }

  lemma ReadOff(rest: seq<Arg>, name: Id)
    ensures Interpret([Word("--off")] + rest, Some(name))
         == Prepend(Directive(Some(name), Off), Interpret(rest, Some(name)))
  {
  }

  lemma ReadMode(mode: string, rest: seq<Arg>, name: Id)
    ensures Interpret([Word("--mode"), Word(mode)] + rest, Some(name))
         == Prepend(Directive(Some(name), SetMode(mode)), Interpret(rest, Some(name)))
  {
  }

  lemma ReadScale(p: Mode, t: Mode, rest: seq<Arg>, name: Id)
    ensures Interpret([Word("--scale"), ScaleFactor(p, t)] + rest, Some(name))
         == Prepend(Directive(Some(name), Scale(p, t)), Interpret(rest, Some(name)))
  {
  }

  lemma ReadPosition(relation: string, anchor: Id, rest: seq<Arg>, name: Id)
    requires IsRelation(relation)
    ensures Interpret([Word("--" + relation), Word(anchor)] + rest, Some(name))
         == Prepend(Directive(Some(name), Position(relation, anchor)), Interpret(rest, Some(name)))
  {
  }

  /** The actions requested of `output` (`None`: of every output), in order. */
  function ActionsOn(ds: seq<Directive>, output: Option<Id>): (r: seq<Action>)
    ensures |r| <= |ds|
  {
    if ds == [] then []
    else (if ds[0].output == output then [ds[0].action] else []) + ActionsOn(ds[1..], output)
  }

  /** An output no directive names is asked nothing. */
  lemma {:induction false} ActionsOnAbsent(ds: seq<Directive>, output: Option<Id>)
    requires forall i :: 0 <= i < |ds| ==> ds[i].output != output
    ensures ActionsOn(ds, output) == []
  {
    if ds != [] {
      ActionsOnAbsent(ds[1..], output);
    }
  }
}
