/** The command line of the asset generator (scripts/generate-assets.mjs):
    `parseArgs` scans the arguments after the program and script names; each
    of `--logo`, `--bg`, `--text` and `--name` takes the token after it as
    its value, and anything else is skipped. Drawing and writing the images
    is not part of this model. */
module GenerateAssets {

  /** An argument value: `null` (the logo default), `undefined` (a flag with
      nothing after it) or a token. */
  datatype ArgValue = NullValue | Undefined | Given(s: string)

  datatype Args = Args(logo: ArgValue, bg: ArgValue, text: ArgValue, name: ArgValue)

  /** The defaults: no logo, blue background, "GFP" on the icon, and the
      application name. */
  const Defaults: Args := Args(NullValue, Given("#2563EB"), Given("GFP"), Given("GeoFlightPlannerCamp"))

  predicate IsFlag(a: string) {
    a == "--logo" || a == "--bg" || a == "--text" || a == "--name"
  }

  /** The flag's field set to `v`. */
  function Set(args: Args, flag: string, v: ArgValue): (r: Args)
    requires IsFlag(flag)
    ensures flag == "--logo" ==> r == args.(logo := v)
    ensures flag == "--bg" ==> r == args.(bg := v)
    ensures flag == "--text" ==> r == args.(text := v)
    ensures flag == "--name" ==> r == args.(name := v)
  {
    if flag == "--logo" then args.(logo := v)
    else if flag == "--bg" then args.(bg := v)
    else if flag == "--text" then args.(text := v)
    else args.(name := v)
  }

  /** `argv[i]`, `undefined` past the end. */
  function At(argv: seq<string>, i: nat): ArgValue {
    if i < |argv| then Given(argv[i]) else Undefined
  }

  /** The scan from position `i` on, as a recursive definition: a flag
      consumes itself and the next token, anything else only itself. */
  function ScanFrom(argv: seq<string>, i: nat, args: Args): Args
    decreases |argv| - i
  {
    if i >= |argv| then args
    else if IsFlag(argv[i]) then ScanFrom(argv, i + 2, Set(args, argv[i], At(argv, i + 1)))
    else ScanFrom(argv, i + 1, args)
  }

  /** Where a scan from `i` stops: the end of the arguments, or one past it
      when the last token was a flag. */
  function Landing(argv: seq<string>, i: nat): (k: nat)
    ensures k >= i
    decreases |argv| - i
  {
    if i >= |argv| then i
    else if IsFlag(argv[i]) then Landing(argv, i + 2)
    else Landing(argv, i + 1)
  }

  /** `parseArgs(argv)` */
  method ParseArgs(argv: seq<string>) returns (args: Args)
    ensures args == ScanFrom(argv, 2, Defaults)
  {
    args := Defaults;
    var i := 2;
    while i < |argv|
      invariant ScanFrom(argv, i, args) == ScanFrom(argv, 2, Defaults)
      decreases |argv| - i
    {
      var a := argv[i];
      if a == "--logo" {
        i := i + 1;
        args := args.(logo := At(argv, i));
      } else if a == "--bg" {
        i := i + 1;
        args := args.(bg := At(argv, i));
      } else if a == "--text" {
        i := i + 1;
        args := args.(text := At(argv, i));
      } else if a == "--name" {
        i := i + 1;
        args := args.(name := At(argv, i));
      }
      i := i + 1;
    }
  }

  /** The program and script names alone give the defaults. */
  lemma NoArguments(argv: seq<string>)
    requires |argv| <= 2
    ensures ScanFrom(argv, 2, Defaults) == Defaults
  {
  }

  /** A scan that stops exactly at the end of `xs` continues into whatever
      follows as a fresh scan from there. */
  lemma {:induction false} ScanAppend(xs: seq<string>, ys: seq<string>, i: nat, args: Args)
    requires Landing(xs, i) == |xs|
    ensures ScanFrom(xs + ys, i, args) == ScanFrom(xs + ys, |xs|, ScanFrom(xs, i, args))
    ensures Landing(xs + ys, i) == Landing(xs + ys, |xs|)
    decreases |xs| - i
  {
    if i < |xs| {
      assert (xs + ys)[i] == xs[i];
      if IsFlag(xs[i]) {
        assert i + 1 < |xs|;
        assert At(xs + ys, i + 1) == At(xs, i + 1);
        ScanAppend(xs, ys, i + 2, Set(args, xs[i], At(xs, i + 1)));
      } else {
        ScanAppend(xs, ys, i + 1, args);
      }
    }
  }

  /** Appending `flag value` to a complete command line sets that field to
      the value and keeps the others: a repeated flag keeps its last value. */
  lemma FlagThenValue(argv: seq<string>, flag: string, v: string)
    requires |argv| >= 2 && Landing(argv, 2) == |argv| && IsFlag(flag)
    ensures ScanFrom(argv + [flag, v], 2, Defaults) == Set(ScanFrom(argv, 2, Defaults), flag, Given(v))
  {
    ScanAppend(argv, [flag, v], 2, Defaults);
    assert (argv + [flag, v])[|argv|] == flag;
    assert At(argv + [flag, v], |argv| + 1) == Given(v);
  }

  /** A flag as the very last token gets `undefined`. */
  lemma TrailingFlag(argv: seq<string>, flag: string)
    requires |argv| >= 2 && Landing(argv, 2) == |argv| && IsFlag(flag)
    ensures ScanFrom(argv + [flag], 2, Defaults) == Set(ScanFrom(argv, 2, Defaults), flag, Undefined)
  {
    ScanAppend(argv, [flag], 2, Defaults);
    assert (argv + [flag])[|argv|] == flag;
  }

  /** A token that is not a flag changes nothing, and the scan still ends at
      the end. */
  lemma OtherTokenSkipped(argv: seq<string>, t: string)
    requires |argv| >= 2 && Landing(argv, 2) == |argv| && !IsFlag(t)
    ensures ScanFrom(argv + [t], 2, Defaults) == ScanFrom(argv, 2, Defaults)
    ensures Landing(argv + [t], 2) == |argv| + 1
  {
    ScanAppend(argv, [t], 2, Defaults);
    assert (argv + [t])[|argv|] == t;
  }

  /** A flag's value is taken as is, even when it looks like a flag itself:
      `--bg --text` sets the background to "--text". */
  lemma ValueNotRescanned(argv: seq<string>)
    requires |argv| >= 2 && Landing(argv, 2) == |argv|
    ensures ScanFrom(argv + ["--bg", "--text"], 2, Defaults).bg == Given("--text")
    ensures ScanFrom(argv + ["--bg", "--text"], 2, Defaults).text == ScanFrom(argv, 2, Defaults).text
  {
    FlagThenValue(argv, "--bg", "--text");
  }
}
