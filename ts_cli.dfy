/** The command line of the TypeScript server (`parseArgs`, given the
    process arguments after the runtime and the script). */
module TsCli {
  import opened Wrappers
  import JsNumber

  /** The `Args` object; `control` false stands for the absent property. */
  datatype Args = Args(config: string, port: Option<int>, password: Option<string>, control: bool)

  const Defaults := Args("skate.json", None, None, false)

  /** How `parseArgs` ends: with its result, by printing the usage and exiting
      with status 0, or by throwing an `Error` with the given message. */
  datatype Outcome = Parsed(args: Args) | HelpShown | Thrown(message: string)

  predicate IsHelp(t: string) { t == "--help" || t == "-h" }
  predicate IsPassword(t: string) { t == "--password" || t == "-P" }
  predicate IsPort(t: string) { t == "--port" || t == "-p" }

  /** The tokens the `switch` has a case for; everything else is a config path. */
  predicate IsOption(t: string) {
    IsHelp(t) || IsPassword(t) || IsPort(t) || t == "--control"
  }

  /** `parseInt(v) || $throw(...)`: NaN and zero are both falsy. */
  function PortOf(v: string): (r: Option<int>)
    ensures r.Some? ==> r == JsNumber.ParseInt(v) && r.value != 0
    ensures r.None? <==> JsNumber.ParseInt(v).None? || JsNumber.ParseInt(v) == Some(0)
  {
    match JsNumber.ParseInt(v)
    case Some(n) => if n == 0 then None else Some(n)
    case None => None
  }

  /** The specification of the parse loop: reading `toks` with `a` built so far. */
  function Scan(a: Args, toks: seq<string>): Outcome
    decreases |toks|
  {
    if toks == [] then Parsed(a)
    else
      var t := toks[0];
      if IsHelp(t) then HelpShown
      else if IsPassword(t) then
        if |toks| < 2 then Thrown("Missing password")
        else Scan(a.(password := Some(toks[1])), toks[2..])
      else if t == "--control" then Scan(a.(control := true), toks[1..])
      else if IsPort(t) then
        if |toks| < 2 then Thrown("Missing port")
        else match PortOf(toks[1])
          case None => Thrown("Invalid port")
          case Some(p) => Scan(a.(port := Some(p)), toks[2..])
      else Scan(a.(config := t), toks[1..])
  }

  /** `parseArgs(argv)`. */
  method ParseArgs(argv: seq<string>) returns (r: Outcome)
    ensures r == Scan(Defaults, argv)
  {
    var args := Defaults;
    var i := 0;
    while i < |argv|
      invariant 0 <= i <= |argv|
      invariant Scan(Defaults, argv) == Scan(args, argv[i..])
    {
      var arg := argv[i];
      assert argv[i..][0] == arg;
      if IsHelp(arg) {
        return HelpShown;
      } else if IsPassword(arg) {
        i := i + 1;
        if i >= |argv| {
          return Thrown("Missing password");
        }
        assert argv[i - 1..][1] == argv[i] && argv[i - 1..][2..] == argv[i + 1..];
        args := args.(password := Some(argv[i]));
      } else if arg == "--control" {
        assert argv[i..][1..] == argv[i + 1..];
        args := args.(control := true);
      } else if IsPort(arg) {
        i := i + 1;
        if i >= |argv| {
          return Thrown("Missing port");
        }
        assert argv[i - 1..][1] == argv[i] && argv[i - 1..][2..] == argv[i + 1..];
        var port := PortOf(argv[i]);
        if port.None? {
          return Thrown("Invalid port");
        }
        args := args.(port := port);
      } else {
        assert argv[i..][1..] == argv[i + 1..];
        args := args.(config := arg);
      }
      i := i + 1;
    }
    r := Parsed(args);
  }

  /** Parsing a prefix that ends cleanly and then the rest is parsing the rest
      from what the prefix built. */
  lemma {:induction false} ScanThen(a: Args, p: seq<string>, q: seq<string>, b: Args)
    requires Scan(a, p) == Parsed(b)
    ensures Scan(a, p + q) == Scan(b, q)
    decreases |p|
  {
    if p == [] {
      assert p + q == q;
    } else {
      var t := p[0];
      assert (p + q)[0] == t;
      if IsPassword(t) || IsPort(t) {
        assert (p + q)[1] == p[1] && (p + q)[2..] == p[2..] + q;
        if IsPassword(t) {
          ScanThen(a.(password := Some(p[1])), p[2..], q, b);
        } else {
          ScanThen(a.(port := PortOf(p[1])), p[2..], q, b);
        }
      } else {
        assert (p + q)[1..] == p[1..] + q;
        if t == "--control" {
          ScanThen(a.(control := true), p[1..], q, b);
        } else {
          ScanThen(a.(config := t), p[1..], q, b);
        }
      }
    }
  }

  /** With no option among them, every token replaces the config path in turn:
      the last one wins, and the defaults stay otherwise. */
  lemma {:induction false} LastPathWins(a: Args, toks: seq<string>)
    requires forall i :: 0 <= i < |toks| ==> !IsOption(toks[i])
    ensures Scan(a, toks) == Parsed(if toks == [] then a else a.(config := toks[|toks| - 1]))
    decreases |toks|
  {
    if toks != [] {
      LastPathWins(a.(config := toks[0]), toks[1..]);
      if |toks| > 1 {
        assert toks[1..][|toks| - 2] == toks[|toks| - 1];
      }
    }
  }

  /** `-c`, though the usage text offers it for `--control`, is taken as a config path. */
  lemma DashCIsConfigPath(pre: seq<string>, a: Args, post: seq<string>)
    requires Scan(Defaults, pre) == Parsed(a)
    ensures Scan(Defaults, pre + ["-c"] + post) == Scan(a.(config := "-c"), post)
  {
    assert pre + ["-c"] + post == pre + (["-c"] + post);
    ScanThen(Defaults, pre, ["-c"] + post, a);
    assert (["-c"] + post)[1..] == post;
  }

  /** The token after `--password`/`-P` is the password, whatever it is, and a
      later one overwrites an earlier one. */
  lemma PasswordTaken(pre: seq<string>, a: Args, opt: string, v: string, post: seq<string>)
    requires Scan(Defaults, pre) == Parsed(a)
    requires IsPassword(opt)
    ensures Scan(Defaults, pre + [opt, v] + post) == Scan(a.(password := Some(v)), post)
  {
    assert pre + [opt, v] + post == pre + ([opt, v] + post);
    ScanThen(Defaults, pre, [opt, v] + post, a);
    assert ([opt, v] + post)[2..] == post;
  }

  /** The token after `--port`/`-p` sets the port unless `parseInt` makes NaN
      or zero of it, which throws "Invalid port". */
  lemma PortTaken(pre: seq<string>, a: Args, opt: string, v: string, post: seq<string>)
    requires Scan(Defaults, pre) == Parsed(a)
    requires IsPort(opt)
    ensures PortOf(v).None? ==> Scan(Defaults, pre + [opt, v] + post) == Thrown("Invalid port")
    ensures PortOf(v).Some? ==> Scan(Defaults, pre + [opt, v] + post) == Scan(a.(port := PortOf(v)), post)
  {
    assert pre + [opt, v] + post == pre + ([opt, v] + post);
    ScanThen(Defaults, pre, [opt, v] + post, a);
    assert ([opt, v] + post)[2..] == post;
  }

  /** `--control` sets the flag and consumes nothing after it; repeating it is harmless. */
  lemma ControlSet(pre: seq<string>, a: Args, post: seq<string>)
    requires Scan(Defaults, pre) == Parsed(a)
    ensures Scan(Defaults, pre + ["--control"] + post) == Scan(a.(control := true), post)
  {
    assert pre + ["--control"] + post == pre + (["--control"] + post);
    ScanThen(Defaults, pre, ["--control"] + post, a);
    assert (["--control"] + post)[1..] == post;
  }

  /** A value option with nothing after it throws. */
  lemma MissingValueThrows(pre: seq<string>, a: Args, opt: string)
    requires Scan(Defaults, pre) == Parsed(a)
    requires IsPassword(opt) || IsPort(opt)
    ensures Scan(Defaults, pre + [opt]) == Thrown(if IsPassword(opt) then "Missing password" else "Missing port")
  {
    ScanThen(Defaults, pre, [opt], a);
  }

  /** `--help`/`-h` ends parsing, whatever follows. */
  lemma HelpEndsParsing(pre: seq<string>, a: Args, opt: string, post: seq<string>)
    requires Scan(Defaults, pre) == Parsed(a)
    requires IsHelp(opt)
    ensures Scan(Defaults, pre + [opt] + post) == HelpShown
  {
    assert pre + [opt] + post == pre + ([opt] + post);
    ScanThen(Defaults, pre, [opt] + post, a);
  }

  /** A port that parsing sets is never zero. */
  lemma {:induction false} PortNeverZero(a: Args, toks: seq<string>)
    requires a.port != Some(0)
    requires Scan(a, toks).Parsed?
    ensures Scan(a, toks).args.port != Some(0)
    decreases |toks|
  {
    if toks != [] {
      var t := toks[0];
      if IsPassword(t) {
        PortNeverZero(a.(password := Some(toks[1])), toks[2..]);
      } else if t == "--control" {
        PortNeverZero(a.(control := true), toks[1..]);
      } else if IsPort(t) {
        PortNeverZero(a.(port := PortOf(toks[1])), toks[2..]);
      } else if !IsHelp(t) {
        PortNeverZero(a.(config := t), toks[1..]);
      }
    }
  }
}
