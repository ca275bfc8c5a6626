/** The command line of the Rust server's `on` action (`Args::parse`). */
module RustCli {
  import opened Wrappers
  import Decimal

  /** What `Args::parse` collects; `unknown` lists the tokens it reported as
      "Unknown argument" on standard error and otherwise ignored. */
  datatype Args = Args(
    config: Option<string>,
    port: Option<int>,
    password: Option<string>,
    control: bool,
    unknown: seq<string>)

  const NoArgs := Args(None, None, None, false, [])

  /** Why parsing stops: the option-specific `exit(1)` cases, and the panic of
      `unwrap` on a port that is not a `u16`. */
  datatype ArgError =
    | ConfigRepeated | ConfigMissing
    | PortRepeated | PortMissing | PortUnparsable(text: string)
    | PasswordRepeated | PasswordMissing
    | ControlRepeated
  {
    /** The line printed before `exit(1)`; a panic prints Rust's own message. */
    function Message(): string {
      match this
      case ConfigRepeated => "Config file already specified."
      case ConfigMissing => "Config file path not specified."
      case PortRepeated => "Port already specified."
      case PortMissing => "Port not specified."
      case PortUnparsable(_) => ""
      case PasswordRepeated => "Password already specified."
      case PasswordMissing => "Password not specified."
      case ControlRepeated => "Control already enabled."
    }
  }

  predicate IsOption(t: string) {
    t == "--config" || t == "--port" || t == "--password" || t == "--control"
  }

  predicate TakesValue(t: string) {
    t == "--config" || t == "--port" || t == "--password"
  }

  /** Whether option `t` has already been given. */
  predicate Given(a: Args, t: string)
    requires IsOption(t)
  {
    if t == "--config" then a.config.Some?
    else if t == "--port" then a.port.Some?
    else if t == "--password" then a.password.Some?
    else a.control
  }

  function RepeatedError(t: string): ArgError
    requires IsOption(t)
  {
    if t == "--config" then ConfigRepeated
    else if t == "--port" then PortRepeated
    else if t == "--password" then PasswordRepeated
    else ControlRepeated
  }

  function MissingError(t: string): ArgError
    requires TakesValue(t)
  {
    if t == "--config" then ConfigMissing
    else if t == "--port" then PortMissing
    else PasswordMissing
  }

  /** The line printed before `exit(1)` tells which option failed and how:
      no two of these errors print the same line. */
  lemma MessagesIdentifyError(e1: ArgError, e2: ArgError)
    requires !e1.PortUnparsable? && !e2.PortUnparsable?
    requires e1.Message() == e2.Message()
    ensures e1 == e2
  {
  }

  /** Rust's `str::parse::<u16>`: an optional `+`, then one or more decimal
      digits whose value fits in 16 bits. */
  function ParseU16(s: string): (r: Option<int>)
    ensures r.Some? ==> 0 <= r.value < 0x1_0000
    ensures r.Some? ==> s != [] && s != "+"
    ensures r.Some? ==> forall i :: 0 <= i < |s| ==> Decimal.IsDigit(s[i]) || (i == 0 && s[i] == '+')
  {
    var digits := if s != [] && s[0] == '+' then s[1..] else s;
    if digits == [] || !Decimal.AllDigits(digits) then None
    else if Decimal.Value(digits) < 0x1_0000 then Some(Decimal.Value(digits))
    else None
  }

  /** The tokens `Args::parse` reads: everything after the program name and the action. */
  function OptionTokens(argv: seq<string>): seq<string> {
    if |argv| <= 2 then [] else argv[2..]
  }

  /** The specification of the parse loop: the result of reading `toks` with `a` collected so far. */
  function Scan(a: Args, toks: seq<string>): Result<Args, ArgError>
    decreases |toks|
  {
    if toks == [] then Ok(a)
    else
      var t := toks[0];
      if t == "--config" then
        if a.config.Some? then Err(ConfigRepeated)
        else if |toks| < 2 then Err(ConfigMissing)
        else Scan(a.(config := Some(toks[1])), toks[2..])
      else if t == "--port" then
        if a.port.Some? then Err(PortRepeated)
        else if |toks| < 2 then Err(PortMissing)
        else match ParseU16(toks[1])
          case None => Err(PortUnparsable(toks[1]))
          case Some(p) => Scan(a.(port := Some(p)), toks[2..])
      else if t == "--password" then
        if a.password.Some? then Err(PasswordRepeated)
        else if |toks| < 2 then Err(PasswordMissing)
        else Scan(a.(password := Some(toks[1])), toks[2..])
      else if t == "--control" then
        if a.control then Err(ControlRepeated)
        else Scan(a.(control := true), toks[1..])
      else Scan(a.(unknown := a.unknown + [t]), toks[1..])
  }

  /** `Args::parse` over the process arguments `argv`. */
  method Parse(argv: seq<string>) returns (r: Result<Args, ArgError>)
    ensures r == Scan(NoArgs, OptionTokens(argv))
  {
    var toks := OptionTokens(argv);
    var config: Option<string> := None;
    var port: Option<int> := None;
    var password: Option<string> := None;
    var control := false;
    var unknown: seq<string> := [];
    var i := 0;
    while i < |toks|
      invariant 0 <= i <= |toks|
      invariant Scan(NoArgs, toks) == Scan(Args(config, port, password, control, unknown), toks[i..])
    {
      var arg := toks[i];
      assert toks[i..][0] == arg;
      i := i + 1;
      if arg == "--config" {
        if config.Some? {
          return Err(ConfigRepeated);
        }
        if i < |toks| {
          assert toks[i - 1..][1] == toks[i] && toks[i - 1..][2..] == toks[i + 1..];
          config := Some(toks[i]);
          i := i + 1;
        } else {
          return Err(ConfigMissing);
        }
      } else if arg == "--port" {
        if port.Some? {
          return Err(PortRepeated);
        }
        if i < |toks| {
          assert toks[i - 1..][1] == toks[i] && toks[i - 1..][2..] == toks[i + 1..];
          var parsed := ParseU16(toks[i]);
          if parsed.None? {
            return Err(PortUnparsable(toks[i]));
          }
          port := parsed;
          i := i + 1;
        } else {
          return Err(PortMissing);
        }
      } else if arg == "--password" {
        if password.Some? {
          return Err(PasswordRepeated);
        }
        if i < |toks| {
          assert toks[i - 1..][1] == toks[i] && toks[i - 1..][2..] == toks[i + 1..];
          password := Some(toks[i]);
          i := i + 1;
        } else {
          return Err(PasswordMissing);
        }
      } else if arg == "--control" {
        if control {
          return Err(ControlRepeated);
        }
        assert toks[i - 1..][1..] == toks[i..];
        control := true;
      } else {
        assert toks[i - 1..][1..] == toks[i..];
        unknown := unknown + [arg];
      }
    }
    r := Ok(Args(config, port, password, control, unknown));
  }

  /** Parsing a prefix that ends cleanly and then the rest is parsing the rest
      from what the prefix collected: no option value straddles the boundary. */
  lemma {:induction false} ScanThen(a: Args, p: seq<string>, q: seq<string>, b: Args)
    requires Scan(a, p) == Ok(b)
    ensures Scan(a, p + q) == Scan(b, q)
    decreases |p|
  {
    if p == [] {
      assert p + q == q;
    } else {
      var t := p[0];
      assert (p + q)[0] == t;
      if TakesValue(t) {
        assert |p| >= 2;
        assert (p + q)[1] == p[1] && (p + q)[2..] == p[2..] + q;
        if t == "--config" {
          ScanThen(a.(config := Some(p[1])), p[2..], q, b);
        } else if t == "--port" {
          ScanThen(a.(port := ParseU16(p[1])), p[2..], q, b);
        } else {
          ScanThen(a.(password := Some(p[1])), p[2..], q, b);
        }
      } else {
        assert (p + q)[1..] == p[1..] + q;
        if t == "--control" {
          ScanThen(a.(control := true), p[1..], q, b);
        } else {
          ScanThen(a.(unknown := a.unknown + [t]), p[1..], q, b);
        }
      }
    }
  }

  /** Any option given a second time stops parsing with that option's error. */
  lemma RepeatedOptionRejected(pre: seq<string>, a: Args, opt: string, post: seq<string>)
    requires Scan(NoArgs, pre) == Ok(a)
    requires IsOption(opt) && Given(a, opt)
    ensures Scan(NoArgs, pre + [opt] + post) == Err(RepeatedError(opt))
  {
    assert pre + [opt] + post == pre + ([opt] + post);
    ScanThen(NoArgs, pre, [opt] + post, a);
  }

  /** An option that takes a value, given last and for the first time, stops
      parsing with that option's "not specified" error. */
  lemma MissingValueRejected(pre: seq<string>, a: Args, opt: string)
    requires Scan(NoArgs, pre) == Ok(a)
    requires TakesValue(opt) && !Given(a, opt)
    ensures Scan(NoArgs, pre + [opt]) == Err(MissingError(opt))
  {
    ScanThen(NoArgs, pre, [opt], a);
  }

  /** The token after `--config` or `--password` is the value, whatever it is,
      even another option name. */
  lemma ValueTakenVerbatim(pre: seq<string>, a: Args, opt: string, v: string, post: seq<string>)
    requires Scan(NoArgs, pre) == Ok(a)
    requires (opt == "--config" || opt == "--password") && !Given(a, opt)
    ensures Scan(NoArgs, pre + [opt, v] + post)
         == Scan(if opt == "--config" then a.(config := Some(v)) else a.(password := Some(v)), post)
  {
    assert pre + [opt, v] + post == pre + ([opt, v] + post);
    ScanThen(NoArgs, pre, [opt, v] + post, a);
    assert ([opt, v] + post)[2..] == post;
  }

  /** The token after `--port` must be a `u16`; anything else panics. */
  lemma PortValue(pre: seq<string>, a: Args, v: string, post: seq<string>)
    requires Scan(NoArgs, pre) == Ok(a)
    requires a.port.None?
    ensures ParseU16(v).None? ==> Scan(NoArgs, pre + ["--port", v] + post) == Err(PortUnparsable(v))
    ensures ParseU16(v).Some? ==>
      Scan(NoArgs, pre + ["--port", v] + post) == Scan(a.(port := ParseU16(v)), post)
  {
    assert pre + ["--port", v] + post == pre + (["--port", v] + post);
    ScanThen(NoArgs, pre, ["--port", v] + post, a);
    assert (["--port", v] + post)[2..] == post;
  }

  /** A token that names no option is reported and skipped; parsing goes on. */
  lemma UnknownTolerated(pre: seq<string>, a: Args, t: string, post: seq<string>)
    requires Scan(NoArgs, pre) == Ok(a)
    requires !IsOption(t)
    ensures Scan(NoArgs, pre + [t] + post) == Scan(a.(unknown := a.unknown + [t]), post)
  {
    assert pre + [t] + post == pre + ([t] + post);
    ScanThen(NoArgs, pre, [t] + post, a);
    assert ([t] + post)[1..] == post;
  }

  /** Once given, an option keeps its value to the end, and every unknown token
      is kept in order. */
  lemma {:induction false} GivenOptionsKept(a: Args, toks: seq<string>, b: Args)
    requires Scan(a, toks) == Ok(b)
    ensures a.config.Some? ==> b.config == a.config
    ensures a.port.Some? ==> b.port == a.port
    ensures a.password.Some? ==> b.password == a.password
    ensures a.control ==> b.control
    ensures a.unknown <= b.unknown
    decreases |toks|
  {
    if toks != [] {
      var t := toks[0];
      if t == "--config" {
        GivenOptionsKept(a.(config := Some(toks[1])), toks[2..], b);
      } else if t == "--port" {
        GivenOptionsKept(a.(port := ParseU16(toks[1])), toks[2..], b);
      } else if t == "--password" {
        GivenOptionsKept(a.(password := Some(toks[1])), toks[2..], b);
      } else if t == "--control" {
        GivenOptionsKept(a.(control := true), toks[1..], b);
      } else {
        GivenOptionsKept(a.(unknown := a.unknown + [t]), toks[1..], b);
      }
    }
  }

  /** A command line without options parses to the defaults, every token reported. */
  lemma {:induction false} NoOptionsAllUnknown(a: Args, toks: seq<string>)
    requires forall i :: 0 <= i < |toks| ==> !IsOption(toks[i])
    ensures Scan(a, toks) == Ok(a.(unknown := a.unknown + toks))
    decreases |toks|
  {
    if toks == [] {
      assert a.unknown + toks == a.unknown;
    } else {
      NoOptionsAllUnknown(a.(unknown := a.unknown + [toks[0]]), toks[1..]);
      assert a.unknown + [toks[0]] + toks[1..] == a.unknown + toks;
    }
  }

  /** A port written in decimal is read back when it fits in 16 bits, with or
      without a leading `+`, and refused when it does not. */
  lemma ParseU16OfShow(n: nat)
    ensures n < 0x1_0000 ==> ParseU16(Decimal.Show(n)) == Some(n)
    ensures n < 0x1_0000 ==> ParseU16("+" + Decimal.Show(n)) == Some(n)
    ensures n >= 0x1_0000 ==> ParseU16(Decimal.Show(n)).None?
  {
    Decimal.ValueOfShow(n);
    assert ("+" + Decimal.Show(n))[1..] == Decimal.Show(n);
  }
}
