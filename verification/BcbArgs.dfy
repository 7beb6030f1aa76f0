/** recovery.c, get_args: arguments kept in the recovery field of the bootloader control
    block, one to a line after the word "recovery", so that every boot finds them again.

    Strings are C strings: contents up to the terminating NUL. The field has 1024 bytes
    and its last one is made a NUL before it is read. */
module BcbArgs {
  import opened Strtok
  import opened Wrappers  // Option

  const FIELD_SIZE: nat := 1024
  const MAX_ARGS: nat := 100
  const PROGRAM := "recovery"
  const BOOT_RECOVERY := "boot-recovery"

  function Take(s: string, n: nat): string { if |s| <= n then s else s[..n] }

  /** strlcat, and strlcpy into an empty field */
  function StrLCat(field: string, s: string): Field { Take(field + s, FIELD_SIZE - 1) }

  // What the field can hold.
  type Field = s: string | |s| < FIELD_SIZE

  // ---------------------------------------------------------------- lines and tokens

  function Lines(args: seq<string>): string {
    if args == [] then "" else args[0] + "\n" + Lines(args[1..])
  }

  /** What get_args writes. */
  function Pack(args: seq<string>): Field {
    Take(Lines([PROGRAM] + args), FIELD_SIZE - 1)
  }

  predicate IsNewline(c: char) { c == '\n' }

  /** What strtok finds between newlines: the lines that are not empty. */
  function Tokens(s: string): seq<string> { Split(s, IsNewline) }

  /** The arguments in a recovery field, if it holds a message for recovery. */
  function ArgsOf(field: string): Option<seq<string>> {
    var tokens := Tokens(field);
    if tokens == [] || tokens[0] != PROGRAM then None
    else if |tokens| <= MAX_ARGS then Some(tokens[1..])
    else Some(tokens[1..MAX_ARGS])
  }

  predicate IsLine(s: string) { s != "" && '\n' !in s }

  type Line = s: string | IsLine(s) witness "-"

  predicate AllLines(args: seq<string>) {
    forall i | 0 <= i < |args| :: IsLine(args[i])
  }

  lemma FirstToken(a: string, rest: string)
    requires IsLine(a) && (rest == "" || rest[0] == '\n')
    ensures Tokens(a + rest) == [a] + Tokens(rest)
  {
    FirstPiece(a, rest, IsNewline);
  }

  lemma NextLine(line: string, rest: string)
    requires IsLine(line)
    ensures Tokens(line + ("\n" + rest)) == [line] + Tokens(rest)
  {
    FirstToken(line, "\n" + rest);
    assert ("\n" + rest)[1..] == rest;
  }

  lemma NoTokens()
    ensures Tokens("") == Tokens("\n") == []
  {
    assert "\n"[1..] == "";
  }

  lemma WithoutLast(a: string, rest: string)
    ensures rest != "" ==> (a + ("\n" + rest))[..|a| + |rest|] == a + ("\n" + rest[..|rest|-1])
    ensures rest == "" ==> (a + ("\n" + rest))[..|a| + |rest|] == a == a + ""
  {
  }

  /** Lines come back, and they do without the last newline. */
  lemma {:induction false} TokensOfLines(args: seq<string>)
    requires AllLines(args)
    ensures Tokens(Lines(args)) == args
    ensures args != [] ==> |Lines(args)| > 0 && Tokens(Lines(args)[..|Lines(args)|-1]) == args
  {
    NoTokens();
    if args != [] {
      var a, rest := args[0], Lines(args[1..]);
      assert Lines(args) == a + ("\n" + rest);
      assert args[1..] == [] ==> rest == "";
      TokensOfLines(args[1..]);
      assert args == [a] + args[1..];
      hide *;
      NextLine(a, rest);
      WithoutLast(a, rest);
      if rest == "" {
        FirstToken(a, "");
      } else {
        NextLine(a, rest[..|rest|-1]);
      }
    }
  }

  lemma {:induction false} TokensAreLines(s: string)
    ensures AllLines(Tokens(s)) && |Lines(Tokens(s))| <= |s| + 1
    decreases |s|
  {
    if s != "" {
      if s[0] == '\n' {
        TokensAreLines(s[1..]);
      } else {
        var n := PieceLength(s, IsNewline);
        var tokens := Tokens(s[n..]);
        assert n > 0;
        TokensAreLines(s[n..]);
        assert ([s[..n]] + tokens)[1..] == tokens;
        if n < |s| {
          TokensAreLines(s[n + 1..]);
          assert s[n..][1..] == s[n + 1..];
        }
      }
    }
  }

  // ---------------------------------------------------------------- the round trip

  /** Arguments survive in the field if and only if they are lines, at most 99 of them,
      and fit: the newline after the last one is the only character that may be lost. */
  lemma RoundTripIff(args: seq<string>)
    ensures ArgsOf(Pack(args)) == Some(args) <==>
      AllLines(args) && |args| <= 99 && |Lines(["recovery"] + args)| <= 1024
  {
    var all := [PROGRAM] + args;
    var text := Lines(all);
    assert all[1..] == args;
    if AllLines(args) && |args| < MAX_ARGS && |text| <= FIELD_SIZE {
      assert AllLines(all);
      TokensOfLines(all);
      assert Tokens(Pack(args)) == all;
    }
    if ArgsOf(Pack(args)) == Some(args) {
      TokensAreLines(Pack(args));
      var tokens := Tokens(Pack(args));
      assert AllLines(tokens[1..]) && AllLines(args);
      if |tokens| <= MAX_ARGS {
        assert tokens == all;
      } else {
        NoneLost(args, tokens);
      }
    }
  }

  /** A field never holds more arguments than were packed into it. */
  lemma NoneLost(args: seq<string>, tokens: seq<string>)
    requires AllLines(args) && tokens == Tokens(Pack(args)) && |args| == MAX_ARGS - 1
    ensures |tokens| <= MAX_ARGS
  {
    var all := [PROGRAM] + args;
    assert AllLines(all);
    TokensOfLines(all);
    TokensOfPrefix(Lines(all), |Pack(args)|);
  }

  lemma {:induction false} TokensOfPrefix(s: string, n: nat)
    requires n <= |s|
    ensures |Tokens(s[..n])| <= |Tokens(s)|
    decreases |s|
  {
    if n > 0 {
      if s[0] == '\n' {
        assert s[..n][1..] == s[1..][..n - 1];
        TokensOfPrefix(s[1..], n - 1);
      } else {
        var l := PieceLength(s, IsNewline);
        if n <= l {
          assert '\n' !in s[..n] by { assert forall i | 0 <= i < n :: s[..n][i] == s[..l][i]; }
          assert s[..n] + "" == s[..n];
          FirstToken(s[..n], "");
        } else {
          assert s[..n] == s[..l] + s[l..n];
          FirstToken(s[..l], s[l..n]);
          assert s[l..n] == s[l..][..n - l];
          TokensOfPrefix(s[l..], n - l);
        }
      }
    }
  }

  /** Whatever was in the field, what one boot found and wrote back the next one finds again. */
  lemma RewriteIsStable(field: string)
    requires |field| < FIELD_SIZE && ArgsOf(field).Some?
    ensures ArgsOf(Pack(ArgsOf(field).value)) == ArgsOf(field)
  {
    var tokens, args := Tokens(field), ArgsOf(field).value;
    TokensAreLines(field);
    var kept := [PROGRAM] + args;
    assert kept <= tokens;
    LinesOfPrefix(kept, tokens);
    assert AllLines(args) by { assert forall i | 0 <= i < |args| :: args[i] == tokens[i + 1]; }
    RoundTripIff(args);
  }

  lemma {:induction false} LinesOfPrefix(a: seq<string>, b: seq<string>)
    requires a <= b
    ensures |Lines(a)| <= |Lines(b)|
  {
    if a != [] { LinesOfPrefix(a[1..], b[1..]); }
  }

  // ---------------------------------------------------------------- get_args

  lemma FirstOf(argv: seq<string>, rest: seq<string>)
    requires |argv| == MAX_ARGS - 1
    ensures var tokens := [PROGRAM] + argv + rest;
      tokens[1..MAX_ARGS] == argv && (rest == [] ==> tokens[1..] == argv)
  {
  }

  /** Where arguments come from: the command line, the control block, the command file. */
  function Chosen(field: string, argv: seq<string>, ignoreMessage: bool, commandFile: Option<seq<string>>): seq<string>
    requires argv != []
  {
    var message := if ignoreMessage then None else ArgsOf(field);
    var program := if message.Some? then PROGRAM else argv[0];
    if |argv| > 1 then argv
    else if message.Some? && message.value != [] then [program] + message.value
    else if commandFile.Some? then
      [program] + (if |commandFile.value| < MAX_ARGS then commandFile.value else commandFile.value[..MAX_ARGS - 1])
    else [program]
  }

  /** The order of precedence: a command line is taken as it is, whatever else there is;
      then come arguments packed into the control block, unless it is ignored; then the
      command file, up to 99 lines of it. */
  lemma Precedence(argv: seq<string>, program: string, field: string, args: seq<string>, ignoreMessage: bool,
      commandFile: Option<seq<string>>, lines: seq<string>)
    ensures |argv| > 1 ==> Chosen(field, argv, ignoreMessage, commandFile) == argv
    ensures args != [] && ArgsOf(Pack(args)) == Some(args) ==>
      Chosen(Pack(args), [program], false, commandFile) == ["recovery"] + args
    ensures |lines| <= 99 ==> Chosen(field, [program], true, Some(lines)) == [program] + lines
    ensures |lines| <= 99 ==> Chosen("", [program], false, Some(lines)) == [program] + lines
    ensures |lines| > 99 ==> Chosen(field, [program], true, Some(lines)) == [program] + lines[..99]
    ensures Chosen(field, [program], true, None) == [program]
    ensures Chosen("", [program], ignoreMessage, None) == [program]
  {
    NoTokens();
  }

  /** The field after a number of boots, each of which ran get_args and was cut short,
      whatever command files it found. */
  ghost function AfterBoots(field: string, commandFiles: seq<Option<seq<string>>>): string {
    if commandFiles == [] then field
    else
      var before := AfterBoots(field, commandFiles[..|commandFiles|-1]);
      Pack(Chosen(before, [PROGRAM], false, commandFiles[|commandFiles|-1])[1..])
  }

  /** Arguments once in the field stay there over any number of reboots. */
  lemma {:induction false} StableOverBoots(field: string, commandFiles: seq<Option<seq<string>>>)
    requires |field| < FIELD_SIZE && ArgsOf(field).Some? && ArgsOf(field).value != []
    ensures var after := AfterBoots(field, commandFiles);
      |after| < FIELD_SIZE && ArgsOf(after) == ArgsOf(field)
  {
    if commandFiles != [] {
      var n := |commandFiles| - 1;
      var before := AfterBoots(field, commandFiles[..n]);
      StableOverBoots(field, commandFiles[..n]);
      RewriteIsStable(before);
      var args := ArgsOf(before).value;
      assert Chosen(before, [PROGRAM], false, commandFiles[n])[1..] == args;
    }
  }

  class BootMessage {
    var command: string
    var recovery: string

    constructor (command: string, recovery: string)
      ensures this.command == command && this.recovery == recovery
    {
      this.command, this.recovery := command, recovery;
    }

    /** The arguments in the message. */
    method ReadArgs() returns (args: Option<seq<string>>)
      ensures args == ArgsOf(recovery)
    {
      var token, pos := NextPiece(recovery, 0, IsNewline);
      assert recovery[0..] == recovery;
      if token.None? || token.value != PROGRAM {
        return None;
      }
      var argv, argc := [], 1;
      while argc < MAX_ARGS
        invariant 1 <= argc <= MAX_ARGS && |argv| == argc - 1 && pos <= |recovery|
        invariant Tokens(recovery) == [PROGRAM] + argv + Tokens(recovery[pos..])
      {
        token, pos := NextPiece(recovery, pos, IsNewline);
        if token.None? {
          assert Tokens(recovery) == [PROGRAM] + argv;
          assert Tokens(recovery)[1..] == argv;
          return Some(argv);
        }
        argv, argc := argv + [token.value], argc + 1;
      }
      FirstOf(argv, Tokens(recovery[pos..]));
      args := Some(argv);
    }

    /** The arguments back into the message. */
    method WriteArgs(args: seq<string>)
      modifies this
      ensures command == "boot-recovery" && recovery == Pack(args)
      ensures |"recovery\n" + Lines(args)| < 1024 ==> recovery == "recovery\n" + Lines(args)
    {
      command := BOOT_RECOVERY;
      recovery := StrLCat("", PROGRAM + "\n");
      PackNothing();
      assert args[..0] == [];
      for i := 0 to |args|
        invariant command == BOOT_RECOVERY && recovery == Pack(args[..i])
      {
        PackNext(args, i);
        recovery := StrLCat(recovery, args[i]);
        recovery := StrLCat(recovery, "\n");
      }
      assert args[..|args|] == args;
      assert ([PROGRAM] + args)[1..] == args;
    }

    /** get_args */
    method GetArgs(argv: seq<string>, ignoreMessage: bool, commandFile: Option<seq<string>>) returns (args: seq<string>)
      requires argv != []
      modifies this
      ensures args == Chosen(old(recovery), argv, ignoreMessage, commandFile)
      ensures command == BOOT_RECOVERY && recovery == Pack(args[1..])
    {
      args := argv;
      if |args| <= 1 && !ignoreMessage {
        var found := ReadArgs();
        if found.Some? {
          args := [PROGRAM] + found.value;
        }
      }
      if |args| <= 1 && commandFile.Some? {
        var lines, argc := commandFile.value, 1;
        args := [args[0]];
        while argc < MAX_ARGS && argc <= |lines|
          invariant 1 <= argc <= MAX_ARGS && argc <= |lines| + 1 && args != [] && args == [args[0]] + lines[..argc - 1]
          invariant args[0] == if !ignoreMessage && ArgsOf(recovery).Some? then PROGRAM else argv[0]
        {
          args := args + [lines[argc - 1]];
          argc := argc + 1;
        }
      }
      WriteArgs(args[1..]);
    }
  }

  lemma PackNothing()
    ensures StrLCat("", PROGRAM + "\n") == Pack([])
  {
    assert [PROGRAM] + [] == [PROGRAM];
    assert Lines([PROGRAM]) == PROGRAM + "\n" + "";
  }

  lemma TakeTwice(a: string, b: string, n: nat)
    ensures Take(Take(a, n) + b, n) == Take(a + b, n)
  {
  }

  lemma {:induction false} LinesAppend(a: seq<string>, b: seq<string>)
    ensures Lines(a + b) == Lines(a) + Lines(b)
  {
    if a == [] {
      assert a + b == b;
    } else {
      assert (a + b)[1..] == a[1..] + b;
      LinesAppend(a[1..], b);
    }
  }

  lemma PackNext(args: seq<string>, i: nat)
    requires i < |args|
    ensures StrLCat(StrLCat(Pack(args[..i]), args[i]), "\n") == Pack(args[..i + 1])
  {
    var before := Lines([PROGRAM] + args[..i]);
    TakeTwice(before, args[i], FIELD_SIZE - 1);
    TakeTwice(before + args[i], "\n", FIELD_SIZE - 1);
    LinesAppend([PROGRAM] + args[..i], [args[i]]);
    assert Lines([args[i]]) == args[i] + "\n" + "" == args[i] + "\n";
    assert [PROGRAM] + args[..i] + [args[i]] == [PROGRAM] + args[..i + 1];
    assert before + args[i] + "\n" == before + (args[i] + "\n");
  }
}
