# xit: display selection and xrandr command building

`xit` is a small command-line utility that reads the `xrandr` report,
picks a *primary* and a *target* output, and starts `xrandr` again with an
argument list for one of its subcommands: `mirror`, `toggle`, `left`,
`right`, `top`, `bottom`, `above`, `below`, `reset` and `off`. This project
models the decision logic of `bin/cmd.js` as pure Dafny functions and proves
what it promises:

- **Selection** (`getDisplays`). The table of outputs is a sequence of
  `(name, record)` pairs in `Object.keys` order. The `--primary`/`--target`
  overrides are optional names. An empty name counts as absent, which is
  JavaScript truthiness. Errors are checked in a fixed order: no displays,
  no primary, no target, primary not found, target not found.
- **Mirror**. The target's mode is chosen by a fallback chain: the first mode
  that fits inside the primary's current geometry and keeps the aspect of
  the target's first mode; otherwise the first mode that fits; otherwise the
  first mode.
- **Toggle**. Exactly one of the two outputs must be native. Otherwise the
  tool prints an error and starts nothing.
- **Argument lists** for off, reset, mirror and the six placement
  subcommands.

The argument lists are proved against a reference reading of `xrandr`'s
option grammar (`Xrandr.Interpret`). It turns a command line into the
actions it requests of each output. The proofs then state what each
subcommand asks of the primary and of the target. For example, toggle
switches off the output that is native and auto-configures the other one.

Modules: `Wrappers` (Option, Result), `Sequences` (`filter(...)[0]`),
`Displays` (the table), `Selection` (`getDisplays`), `Decimal` (mode names
`WxH`), `Xrandr` (the reference reading of a command line), `Commands` (one
builder per subcommand) and `Cli` (one run, after the report is parsed).

Three details of `bin/cmd.js` that the model keeps as the code has them:

- The `--scale` factor divides by the aspect of the target's *first* mode,
  not of the chosen mode (`tratio`, bin/cmd.js:44 and 58).
- `above` and `below` produce the option `--undefined`. See Findings.
- An empty mode list is not a checked error. Reading the first mode's width
  of the primary or the target throws an uncaught `TypeError`, which the
  model's `Crash` outcome stands for.

## Model

| member | source | states |
|---|---|---|
| `Displays.Lookup` | bin/cmd.js:30-33 | `displays[k]` is undefined exactly when no entry has key `k`; otherwise it is the record of an entry with that key |
| `Displays.LookupAt` | bin/cmd.js:30-33 | with distinct keys, looking up the key at a position gives that position's own record |
| `Sequences.FilterHead` | bin/cmd.js:20-27 | `filter(p)[0]` is undefined exactly when nothing satisfies `p`; otherwise it is the first element in order that does |
| `Selection.FirstKey` | bin/cmd.js:20-27 | `keys.filter(p)[0]` is absent iff no entry satisfies `p`, else the key of the first entry that does |
| `Selection.SelectError.Message` | bin/cmd.js:18-33 | each selection error prints its own fixed message, word for word as the tool writes it |
| `Selection.Select` | bin/cmd.js:14-37 | an empty table fails with "no displays detected" whatever the overrides; a success names two non-empty keys whose records are exactly `dp` and `dt`, and a given override is used as is |
| `Selection.DefaultPrimary` | bin/cmd.js:20-23 | without an override, the primary step passes iff the first index-0 entry has a non-empty name; that entry is then the primary, and its record has index 0 |
| `Selection.DefaultTarget` | bin/cmd.js:25-28 | without an override, the target is the first connected entry named differently from the primary, so it never equals the primary, and its record is connected |
| `Selection.DefaultTargetResolves` | bin/cmd.js:25-27 | when every name is non-empty, any connected output other than the primary lets the default target step pass |
| `Selection.SelectResolved` | bin/cmd.js:20-35 | once the primary and the target resolve (override if given, else the first match), selection succeeds iff both are keys, with their own records; otherwise it fails with "requested primary display not found", else "requested target display not found"; this covers one override, two or none |
| `Selection.SelectNoTarget` | bin/cmd.js:25-31 | when no target resolves, selection fails with "no target display detected", for an override or a default primary, before either not-found check |
| `Decimal.Digits` | bin/cmd.js:55-57 | a number's text is a non-empty string of decimal digits with no leading zero |
| `Decimal.DigitsRoundTrip` | bin/cmd.js:55-57 | reading the digits back gives the number |
| `Decimal.ModeName` | bin/cmd.js:57 | a mode is written as its width, an x and its height |
| `Decimal.GeometryName` | bin/cmd.js:55 | the primary's current geometry is written as width x height, with "undefined" for a missing value |
| `Decimal.ModeNameRoundTrip` | bin/cmd.js:57 | the name `WxH` written for a mode reads back as that mode |
| `Decimal.GeometryNameRoundTrip` | bin/cmd.js:55 | the primary's geometry text is a readable mode iff the output is active (otherwise it is `undefinedxundefined`), and then it is its current width and height |
| `Commands.ChooseMode` | bin/cmd.js:45-51 | the mirrored mode is always one of the target's modes |
| `Commands.ChooseModeOrder` | bin/cmd.js:45-51 | fallback order: the first mode that fits the primary's geometry and has the first mode's aspect; else the first mode that fits; else the first mode |
| `Commands.Fits` | bin/cmd.js:45-47 | a mode fits when its width and height are at most the primary's current ones; never when the primary has no current geometry |
| `Commands.SameAspect` | bin/cmd.js:44-50 | a mode keeps the aspect of the first mode when their width-to-height quotients are equal, with JavaScript's results for zero heights |
| `Commands.MirrorCommand` | bin/cmd.js:43-60 | mirror throws before starting anything exactly when the primary or the target has no modes |
| `Commands.MirrorArgs` | bin/cmd.js:53-58 | the mirror command line: primary at its geometry, target at the chosen mode, then the scale |
| `Commands.MirrorRequests` | bin/cmd.js:53-59 | mirror sets the primary to its current geometry, and sets the target to the chosen mode scaled by the primary's over the target's first-mode aspect, and no other output is asked anything |
| `Commands.ToggleRequests` | bin/cmd.js:67-83 | toggle starts xrandr iff exactly one output is native, else it prints the reset hint; the native output is switched off and the other auto-configured, and no other output is asked anything |
| `Commands.ToggleCommand` | bin/cmd.js:67-83 | the toggle decision on the two native flags: three cases, two command lines and the reset hint |
| `Commands.Relation` | bin/cmd.js:90-95 | every placement direction gives one of xrandr's four relations: left-of, right-of, above, below |
| `Commands.RelationLookup` | bin/cmd.js:90-94 | the tool's direction table: left-of, right-of, above and below for left, right, top and bottom, nothing for above and below |
| `Commands.RelationAsWritten` | bin/cmd.js:90-95 | as written, a direction missing from the table gives the relation "undefined" |
| `Commands.PlaceArgsAsWritten` | bin/cmd.js:90-100 | the placement command line as written: target auto, then the relation option and the primary |
| `Commands.PlaceArgs` | bin/cmd.js:97-100 | the placement command line with above and below passed through |
| `Commands.PlaceRequests` | bin/cmd.js:90-101 | a placement auto-configures the target and positions it by the direction's relation to the primary; the primary, named only as the anchor, and every other output are asked nothing |
| `Commands.PlaceAsWrittenRefused` | bin/cmd.js:90-100 | as written, `above` and `below` send `--undefined`, which xrandr refuses, while the other four directions are unaffected |
| `Commands.ResetRequests` | bin/cmd.js:104-113 | after any successful selection the target is non-empty, so reset always auto-configures every output and switches the target off, and asks nothing else of any single output |
| `Commands.ResetArgs` | bin/cmd.js:108-112 | reset auto-configures every output, and switches the target off when there is one |
| `Commands.OffRequests` | bin/cmd.js:115-124 | off switches the target off and auto-configures the primary, and no other output is asked anything |
| `Commands.OffArgs` | bin/cmd.js:119-122 | off switches the target off, then auto-configures the primary |
| `Cli.Run` | bin/cmd.js:39-126 | only mirror can crash, and a placement after a successful selection always starts xrandr, with the list as the code writes it |
| `Cli.RunStartsNothingOnError` | bin/cmd.js:41-88 | a failed selection prints its message and starts nothing, whatever the subcommand; an empty table always prints "no displays detected"; toggle starts xrandr iff the two native flags differ |
| `Cli.RunPlace` | bin/cmd.js:86-102 | after a successful selection a placement always starts xrandr: for left, right, top and bottom with the list that auto-configures the target and positions it by the relation to the primary; for above and below with a command line xrandr refuses |
| `Cli.MirrorLaptop` | bin/cmd.js:39-61 | a panel A at 1920x1080 and a projector B at 1280x720: mirror sets A to 1920x1080 and B to 1280x720, and the aspects are equal |
| `Cli.OffLaptop` | bin/cmd.js:115-124 | on the same table, off sends `--output B --off --output A --auto` |

## Findings

| source | as written | input that shows it | evidently intended | confidence | as-written member | corrected member |
|---|---|---|---|---|---|---|
| bin/cmd.js:90-95 | the lookup table has no `above`/`below` entries, so the fallback to `xof` reads the hoisted `xof`, still `undefined`, and the option becomes `--undefined` | `xit above` (or `xit below`) with any successful selection | `above` and `below` are already xrandr relations and pass through unchanged | high; not executed | `Commands.PlaceAsWrittenRefused` | `Commands.PlaceRequests` |

`Cli.Run` sends the list as written (`Commands.PlaceArgsAsWritten`); `Commands.PlaceArgs` is the corrected list, and `Cli.RunPlace` relates the two.

## Left out

- Querying `xrandr` (`query`, `exec`) and starting it (`spawn`, standard streams inherited, exit status) are not modelled. A run ends in an `Outcome`: the argument list handed to `xrandr`, the message printed before exiting with status 1, or an uncaught exception.
- The `xrandr-parse` library is not part of this model. Its result is the input `Table`, taken to be in `Object.keys` order, and a failing query is not modelled. The model assumes every record has a `modes` array. It also ignores `Object.keys` putting integer-like names first and lookups of names inherited from `Object.prototype`.
- `minimist` option parsing, `-h`/`--help`, usage text and the subcommand regular expression are not modelled: the subcommand and the overrides are parameters. An override that `minimist` turns into a number (such as `-p 1`) is not modelled.
- `Commands.MirrorArgs`: the `--scale` value `(pratio / tratio) + 'x1'` is kept as the pair of first modes it is computed from (`Arg.ScaleFactor`). Floating-point division, `NaN`/`Infinity` and JavaScript's number formatting are not modelled.
- `Commands.SameAspect`: the exact-fraction comparison matches JavaScript's comparison of rounded quotients only for sizes below 2^17 pixels. Larger sizes are not modelled.
- `Decimal.Digits`: JavaScript writes numbers of 10^21 and above in exponent notation, which is not modelled.
- `Xrandr.Interpret` is a reference reading of the options this tool uses. The rest of `xrandr`'s grammar and what `xrandr` then does to the screen are not modelled.
