/** The interactive shell (`main`): show the menu, read an option, and run a
    pass, quit, or give up, until the program exits. Standard input is the
    sequence of what `fmt.Scan` makes of each token the operator types. */
module Shell {
  import opened Common
  import opened UrlSource
  import opened Monitor

  /** One `fmt.Scan(&option)` on standard input: an integer token, or
      anything else (a non-integer token, or the end of input). */
  datatype Scanned = Integer(n: int) | NotAnInteger

  /** Go's `int` on a 64-bit platform. */
  const INT_MIN: int := -0x8000_0000_0000_0000
  const INT_MAX: int := 0x7FFF_FFFF_FFFF_FFFF

  /** `readOption`: the scanned integer, or `option`'s zero value 0 when the
      scan fails (which includes an integer too large for `int`), since the
      scan error is ignored. */
  function ReadOption(scanned: Scanned): (option: int)
    ensures INT_MIN <= option <= INT_MAX
    ensures option != 0 ==> scanned == Integer(option)
    ensures scanned.Integer? && INT_MIN <= scanned.n <= INT_MAX ==> option == scanned.n
  {
    match scanned
    case Integer(n) => if INT_MIN <= n <= INT_MAX then n else 0
    case NotAnInteger => 0
  }

  /** The token at position `i` of standard input; past its end `fmt.Scan`
      fails. */
  function Next(input: seq<Scanned>, i: nat): Scanned {
    if i < |input| then input[i] else NotAnInteger
  }

  /** What the `switch` in `main` does with an option. */
  datatype Action = MonitorEnvironment(environment: string) | Quit(code: int)

  /** The menu dispatch: total over every integer. */
  function Dispatch(option: int): (a: Action)
    ensures a == MonitorEnvironment(SANDBOX) <==> option == 1
    ensures a == MonitorEnvironment(PRODUCTION) <==> option == 2
    ensures a == Quit(0) <==> option == 0
    ensures a == Quit(-1) <==> option != 0 && option != 1 && option != 2
  {
    match option
    case 1 => MonitorEnvironment(SANDBOX)
    case 2 => MonitorEnvironment(PRODUCTION)
    case 0 => Quit(0)
    case _ => Quit(-1)
  }

  /** The outside world during pass number `p`: the working directory and the
      network as they are then. */
  datatype World = World(files: map<string, seq<char>>, network: Network)

  /** Everything the program prints, and the status it exits with. */
  datatype SessionOutcome = SessionOutcome(lines: seq<Line>, code: int)

  /** The session from the `i`-th token on, the next pass being number `pass`.
      On this finite input, with every probe answered, the session ends, and
      only with status 0 (after "See you later") or -1 (after an invalid
      option, or a URL file that cannot be opened). */
  function SessionFrom(input: seq<Scanned>, i: nat, pass: nat, world: nat -> World): (s: SessionOutcome)
    ensures s.code == 0 || s.code == -1
    ensures |s.lines| > 0 && (s.code == 0 <==> s.lines[|s.lines| - 1] == Farewell)
    decreases |input| - i
  {
    match Dispatch(ReadOption(Next(input, i)))
    case Quit(code) => SessionOutcome([if code == 0 then Farewell else InvalidOption], code)
    case MonitorEnvironment(environment) =>
      var outcome := Pass(environment, world(pass).files, world(pass).network);
      if outcome.status.Exit? then
        assert outcome.lines[|outcome.lines| - 1] == SourceError(OpenFailed(FileName(environment)));
        SessionOutcome(outcome.lines, outcome.status.code)
      else
        var rest := SessionFrom(input, i + 1, pass + 1, world);
        SessionOutcome(outcome.lines + rest.lines, rest.code)
  }

  /** The whole run of the program on this standard input: on finite input,
      with every probe answered, it ends with status 0 exactly when its last
      line is the farewell, and with -1 otherwise. */
  function Session(input: seq<Scanned>, world: nat -> World): (s: SessionOutcome)
    ensures s.code == 0 || s.code == -1
    ensures |s.lines| > 0 && (s.code == 0 <==> s.lines[|s.lines| - 1] == Farewell)
  {
    SessionFrom(input, 0, 0, world)
  }

  /** Input that is not an integer, such as the end of standard input, is
      read as option 0: the program says goodbye and exits with status 0. */
  lemma UnreadableInputQuits(input: seq<Scanned>, i: nat, pass: nat, world: nat -> World)
    requires Next(input, i) == NotAnInteger
    ensures SessionFrom(input, i, pass, world) == SessionOutcome([Farewell], 0)
  {
  }

  /** Option 0 ends the program at once: goodbye, and status 0. */
  lemma OptionZeroQuits(input: seq<Scanned>, i: nat, pass: nat, world: nat -> World)
    requires ReadOption(Next(input, i)) == 0
    ensures SessionFrom(input, i, pass, world) == SessionOutcome([Farewell], 0)
  {
  }

  /** An integer other than 0, 1 and 2 ends the program at once: "Invalid
      option", and status -1. */
  lemma OtherOptionExits(input: seq<Scanned>, i: nat, pass: nat, world: nat -> World)
    requires var option := ReadOption(Next(input, i)); option != 0 && option != 1 && option != 2
    ensures SessionFrom(input, i, pass, world) == SessionOutcome([InvalidOption], -1)
  {
  }

  /** Option 1 runs a pass over sandbox and option 2 one over production,
      with the world of this pass. Its lines come first; if the pass goes on,
      the menu reads the next token as pass number `pass + 1`, and otherwise
      the program exits with status -1 right after the pass. */
  lemma MonitorOptionRunsPass(input: seq<Scanned>, i: nat, pass: nat, world: nat -> World)
    requires ReadOption(Next(input, i)) == 1 || ReadOption(Next(input, i)) == 2
    ensures var environment := if ReadOption(Next(input, i)) == 1 then SANDBOX else PRODUCTION;
      var p := Pass(environment, world(pass).files, world(pass).network);
      var s := SessionFrom(input, i, pass, world);
      var rest := SessionFrom(input, i + 1, pass + 1, world);
      |p.lines| <= |s.lines| && s.lines[..|p.lines|] == p.lines &&
      (p.status == Continue ==> s == SessionOutcome(p.lines + rest.lines, rest.code)) &&
      (p.status != Continue ==> s == SessionOutcome(p.lines, -1))
  {
    var environment := if ReadOption(Next(input, i)) == 1 then SANDBOX else PRODUCTION;
    var p := Pass(environment, world(pass).files, world(pass).network);
    var s := SessionFrom(input, i, pass, world);
    assert Dispatch(ReadOption(Next(input, i))) == MonitorEnvironment(environment);
    if p.status == Continue {
      var rest := SessionFrom(input, i + 1, pass + 1, world);
      assert s.lines == p.lines + rest.lines;
      assert s.lines[..|p.lines|] == p.lines;
    }
  }

  /** Moving the lines of one pass from the rest of the session to what has
      been printed. */
  lemma PassPrinted(done: seq<Line>, passLines: seq<Line>, tail: seq<Line>, left: seq<Line>, all: seq<Line>)
    requires done + left == all && left == passLines + tail
    ensures (done + passLines) + tail == all
  {
  }

  /** `main`: loop over the menu until an exit. */
  method Run(input: seq<Scanned>, world: nat -> World) returns (lines: seq<Line>, code: int)
    ensures SessionOutcome(lines, code) == Session(input, world)
  {
    lines := [];
    var i, pass := 0, 0;
    while true
      invariant i <= |input|
      invariant Session(input, world) ==
        SessionOutcome(lines + SessionFrom(input, i, pass, world).lines, SessionFrom(input, i, pass, world).code)
      decreases |input| - i
    {
      ghost var i0, lines0 := i, lines;
      var option := ReadOption(Next(input, i));
      if i < |input| {
        i := i + 1;
      }
      match Dispatch(option) {
        case Quit(code) =>
          if code == 0 { OptionZeroQuits(input, i0, pass, world); } else { OtherOptionExits(input, i0, pass, world); }
          lines := lines + [if code == 0 then Farewell else InvalidOption];
          return lines, code;
        case MonitorEnvironment(environment) =>
          MonitorOptionRunsPass(input, i0, pass, world);
          var passLines, _, status := RunPass(environment, world(pass).files, world(pass).network);
          lines := lines + passLines;
          if status.Exit? {
            return lines, status.code;
          }
          PassPrinted(lines0, passLines, SessionFrom(input, i, pass + 1, world).lines,
            SessionFrom(input, i0, pass, world).lines, Session(input, world).lines);
      }
      pass := pass + 1;
    }
  }
}
