/** Properties of the console front end of Program.cs: what the masked editor keeps and what it shows,
    how a line is split into words, the case-insensitive command table, the guards of `twitchbot`,
    and how the command loop ends. */
module ConsoleProperties {
  import opened AuthTypes
  import opened ConsoleSpec

  // ---------------------------------------------------------------- the secret editor

  /** Every key adds at most one character to the secret. */
  lemma {:induction false} TypedBound(keys: seq<KeyInfo>)
    ensures |Typed(keys)| <= |keys|
  {
    if keys != [] {
      TypedBound(keys[..|keys| - 1]);
    }
  }

  /** The secret never holds a control character. */
  lemma {:induction false} TypedClean(keys: seq<KeyInfo>)
    ensures forall i | 0 <= i < |Typed(keys)| :: !IsControl(Typed(keys)[i])
  {
    if keys != [] {
      var before := keys[..|keys| - 1];
      TypedClean(before);
      var s := Typed(before);
      var k := keys[|keys| - 1];
      if k.key == Backspace && |s| > 0 {
        assert Typed(keys) == s[..|s| - 1];
      } else if !IsControl(k.keyChar) {
        assert Typed(keys) == s + [k.keyChar];
      }
    }
  }

  /** The echo is made of asterisks and of the back-blank-back of an erased character. */
  lemma {:induction false} EchoMasked(keys: seq<KeyInfo>)
    ensures forall i | 0 <= i < |Echo(keys)| :: Echo(keys)[i] in "* \U{8}"
  {
    if keys != [] {
      EchoMasked(keys[..|keys| - 1]);
    }
  }

  /** Two key streams that differ only in which printable characters were typed. */
  predicate SameShape(a: seq<KeyInfo>, b: seq<KeyInfo>) {
    |a| == |b| && forall i | 0 <= i < |a| :: a[i].key == b[i].key && IsControl(a[i].keyChar) == IsControl(b[i].keyChar)
  }

  /** The echo does not depend on the characters of the secret: typing a different secret with the
      same keystrokes shows exactly the same thing, and leaves a secret of the same length. */
  lemma {:induction false} EchoHidesSecret(a: seq<KeyInfo>, b: seq<KeyInfo>)
    requires SameShape(a, b)
    ensures Echo(a) == Echo(b) && |Typed(a)| == |Typed(b)|
  {
    if a != [] {
      var n := |a| - 1;
      assert SameShape(a[..n], b[..n]) by {
        forall i | 0 <= i < n ensures a[..n][i] == a[i] && b[..n][i] == b[i] { }
      }
      EchoHidesSecret(a[..n], b[..n]);
    }
  }

  /** One more key: Backspace removes exactly the last character when there is one, and echoes the
      erasure; a character that is not a control character is appended at the end and echoes one
      asterisk; anything else, the Backspace key's own control character on an empty secret included,
      changes nothing and echoes nothing. */
  lemma KeyEffect(keys: seq<KeyInfo>, k: KeyInfo)
    ensures var before, after := Typed(keys), Typed(keys + [k]);
            var shown := Echo(keys + [k]);
            && (k.key == Backspace && |before| > 0 ==>
                  after == before[..|before| - 1] && shown == Echo(keys) + Erase)
            && (!(k.key == Backspace && |before| > 0) && !IsControl(k.keyChar) ==>
                  after == before + [k.keyChar] && shown == Echo(keys) + "*")
            && (!(k.key == Backspace && |before| > 0) && IsControl(k.keyChar) ==>
                  after == before && shown == Echo(keys))
  {
    assert (keys + [k])[..|keys|] == keys;
  }

  /** Typing a character and then Backspace gives back the secret as it was. */
  lemma TypeThenErase(keys: seq<KeyInfo>, c: char, b: KeyInfo)
    requires !IsControl(c) && b.key == Backspace
    ensures Typed(keys + [KeyInfo(OtherKey, c), b]) == Typed(keys)
  {
    var typed := keys + [KeyInfo(OtherKey, c)];
    assert (keys + [KeyInfo(OtherKey, c), b])[..|typed|] == typed;
    assert typed[..|keys|] == keys;
  }

  lemma {:induction false} FirstEnterAt(keys: seq<KeyInfo>, c: char, rest: seq<KeyInfo>)
    requires forall i | 0 <= i < |keys| :: keys[i].key != Enter
    ensures FirstEnter(keys + [KeyInfo(Enter, c)] + rest) == |keys|
  {
    var all := keys + [KeyInfo(Enter, c)] + rest;
    if keys != [] {
      assert all[1..] == keys[1..] + [KeyInfo(Enter, c)] + rest;
      FirstEnterAt(keys[1..], c, rest);
    }
  }

  /** Enter ends the secret and is not part of it; keys typed after it are not read. */
  lemma ReadSecretAtEnter(keys: seq<KeyInfo>, c: char, rest: seq<KeyInfo>)
    requires forall i | 0 <= i < |keys| :: keys[i].key != Enter
    ensures ReadSecret(keys + [KeyInfo(Enter, c)] + rest) == SecretRead(Typed(keys), Echo(keys), true)
  {
    FirstEnterAt(keys, c, rest);
    assert (keys + [KeyInfo(Enter, c)] + rest)[..|keys|] == keys;
  }

  /** Without an Enter the read never completes. */
  lemma {:induction false} ReadSecretWithoutEnter(keys: seq<KeyInfo>)
    requires forall i | 0 <= i < |keys| :: keys[i].key != Enter
    ensures !ReadSecret(keys).complete
  {
    if keys != [] {
      ReadSecretWithoutEnter(keys[1..]);
    }
  }

  /** The secret read is no longer than the keys before the first Enter. */
  lemma ReadSecretBound(keys: seq<KeyInfo>)
    ensures |ReadSecret(keys).secret| <= FirstEnter(keys)
  {
    TypedBound(keys[..FirstEnter(keys)]);
  }

  // ---------------------------------------------------------------- splitting a line

  /** `s` without its spaces. */
  function RemoveSpaces(s: string): (r: string)
    ensures |r| <= |s|
  {
    if s == [] then [] else (if s[0] == ' ' then [] else [s[0]]) + RemoveSpaces(s[1..])
  }

  /** The words of a line, run together. */
  function Concat(words: seq<string>): string {
    if words == [] then [] else words[0] + Concat(words[1..])
  }

  lemma {:induction false} RemoveSpacesAppend(a: string, b: string)
    ensures RemoveSpaces(a + b) == RemoveSpaces(a) + RemoveSpaces(b)
  {
    if a == [] {
      assert a + b == b;
    } else {
      assert (a + b)[1..] == a[1..] + b;
      RemoveSpacesAppend(a[1..], b);
    }
  }

  lemma {:induction false} RemoveSpacesNone(w: string)
    requires forall i | 0 <= i < |w| :: w[i] != ' '
    ensures RemoveSpaces(w) == w
  {
    if w != [] {
      RemoveSpacesNone(w[1..]);
    }
  }

  /** Splitting loses the spaces and nothing else, and keeps the order of the characters. */
  lemma {:induction false} SplitKeepsCharacters(s: string)
    ensures Concat(Split(s)) == RemoveSpaces(s)
    decreases |s|
  {
    if s != [] {
      if s[0] == ' ' {
        SplitKeepsCharacters(s[1..]);
      } else {
        var w := Word(s);
        var rest := s[|w|..];
        assert s == w + rest;
        SplitKeepsCharacters(rest);
        RemoveSpacesAppend(w, rest);
        RemoveSpacesNone(w);
        assert Split(s)[1..] == Split(rest);
      }
    }
  }

  /** A line has at least one word exactly when it has a character other than a space. */
  lemma SplitEmptyIff(s: string)
    ensures Split(s) == [] <==> forall i | 0 <= i < |s| :: s[i] == ' '
  {
    if exists k :: 0 <= k < |s| && s[k] != ' ' {
      var k :| 0 <= k < |s| && s[k] != ' ';
      SplitFindsWord(s, k);
    } else {
      SplitKeepsCharacters(s);
      AllSpaces(s);
    }
  }

  lemma {:induction false} AllSpaces(s: string)
    requires forall i | 0 <= i < |s| :: s[i] == ' '
    ensures Split(s) == []
  {
    if s != [] {
      AllSpaces(s[1..]);
    }
  }

  /** A word the splitter can give back: not empty, without a space. */
  predicate IsWord(w: string) {
    w != [] && forall i | 0 <= i < |w| :: w[i] != ' '
  }

  /** The words joined with single spaces, as `string.Join(" ", words)`. */
  function Join(words: seq<string>): string {
    if words == [] then []
    else if |words| == 1 then words[0]
    else words[0] + " " + Join(words[1..])
  }

  lemma {:induction false} WordOf(w: string, rest: string)
    requires forall i | 0 <= i < |w| :: w[i] != ' '
    requires rest == [] || rest[0] == ' '
    ensures Word(w + rest) == w
  {
    if w != [] {
      assert (w + rest)[1..] == w[1..] + rest;
      WordOf(w[1..], rest);
    } else {
      assert w + rest == rest;
    }
  }

  /** Splitting gives back the words a line was joined from. */
  lemma {:induction false} SplitJoin(words: seq<string>)
    requires forall i | 0 <= i < |words| :: IsWord(words[i])
    ensures Split(Join(words)) == words
  {
    if words != [] {
      var w := words[0];
      if |words| == 1 {
        WordOf(w, []);
        assert w + [] == w;
        assert w[|w|..] == [];
      } else {
        var rest := Join(words[1..]);
        var s := w + " " + rest;
        WordOf(w, " " + rest);
        assert s == w + (" " + rest);
        assert s[|w|..] == " " + rest;
        assert (" " + rest)[1..] == rest;
        SplitJoin(words[1..]);
      }
    }
  }

  /** A command typed with its arguments is read back as that command and those arguments, as long as
      the command has a character that is not white space (a line of tabs only is skipped). */
  lemma ParseJoined(cmd: string, args: seq<string>, k: nat)
    requires IsWord(cmd) && forall i | 0 <= i < |args| :: IsWord(args[i])
    requires k < |cmd| && !IsWhiteSpace(cmd[k])
    ensures ParseLine(Some(Join([cmd] + args))) == CommandLine(cmd, args)
  {
    var words := [cmd] + args;
    var line := Join(words);
    JoinStarts(words);
    assert line[k] == cmd[k];
    ParseWords(line, k);
    assert forall i | 0 <= i < |words| :: IsWord(words[i]) by {
      forall i | 0 <= i < |words| ensures IsWord(words[i]) {
        if i > 0 {
          assert words[i] == args[i - 1];
        }
      }
    }
    SplitJoin(words);
    assert Split(line) == words;
    assert words[1..] == args;
  }

  /** A line that is not blank is parsed into its first word and the rest. */
  lemma ParseWords(line: string, k: nat)
    requires k < |line| && !IsWhiteSpace(line[k])
    ensures Split(line) != [] && ParseLine(Some(line)) == CommandLine(Split(line)[0], Split(line)[1..])
  {
    SplitFindsWord(line, k);
    var p := ParseLine(Some(line));
    assert [p.cmd] + p.args == Split(line);
  }

  lemma JoinStarts(words: seq<string>)
    requires words != []
    ensures |words[0]| <= |Join(words)| && Join(words)[..|words[0]|] == words[0]
  {
    if |words| > 1 {
      assert Join(words) == words[0] + (" " + Join(words[1..]));
    }
  }

  // ---------------------------------------------------------------- the command table

  /** The table ignores case: commands that differ only in case run the same action. */
  lemma LookupIgnoresCase(a: string, b: string)
    requires EqualsIgnoreCase(a, b)
    ensures Lookup(a) == Lookup(b)
  {
  }

  /** The two commands, and the name the usage text gives, which is not one of them. */
  lemma LookupNames()
    ensures Lookup("SECRET") == Some(SecretCommand)
    ensures Lookup("TwitchBot") == Some(TwitchBotCommand)
    ensures Lookup("bot") == None
  {
    assert EqualsIgnoreCase("SECRET", "secret");
    assert EqualsIgnoreCase("TwitchBot", "twitchbot");
  }

  /** A null or blank line is skipped. */
  lemma BlankLineSkipped(sh: Shell, input: ConsoleInput, log: seq<ShellEvent>)
    requires IsNullOrWhiteSpace(input.line)
    ensures ProcessLine(sh, input, log) == ShellStep(sh, log, Continue)
  {
  }

  /** An unknown command is reported and nothing is dispatched. */
  lemma UnknownCommandIgnored(sh: Shell, input: ConsoleInput, log: seq<ShellEvent>)
    requires ParseLine(input.line).CommandLine? && Lookup(ParseLine(input.line).cmd) == None
    ensures ProcessLine(sh, input, log) == ShellStep(sh, log + [UnknownCommand(ParseLine(input.line).cmd)], Continue)
  {
  }

  // ---------------------------------------------------------------- the `twitchbot` command

  /** Without a subcommand, only the usage is printed, whether or not a secret is set. */
  lemma TwitchBotUsageFirst(sh: Shell, connected: bool, init: InitOutcome, log: seq<ShellEvent>)
    ensures TwitchBot(sh, [], connected, init, log) == ShellStep(sh, log + [UsagePrinted], Continue)
  {
  }

  /** Without a secret, no bot is created or initialised, and the state is unchanged. */
  lemma TwitchBotNeedsSecret(sh: Shell, args: seq<string>, connected: bool, init: InitOutcome, log: seq<ShellEvent>)
    requires args != [] && sh.secret.None?
    ensures var r := TwitchBot(sh, args, connected, init, log);
            && r.shell == sh && r.end == Continue
            && r.log[|r.log| - 1] == SecretMissingWarned
            && BotCreated !in r.log[|log|..] && BotInitialising !in r.log[|log|..]
  {
  }

  /** The command never changes the secret, an existing bot is kept as it is, and a bot is created
      exactly by `start` when a secret is set and there is no bot yet, with that secret. */
  lemma TwitchBotBot(sh: Shell, args: seq<string>, connected: bool, init: InitOutcome, log: seq<ShellEvent>)
    ensures var r := TwitchBot(sh, args, connected, init, log);
            && r.shell.secret == sh.secret
            && (sh.botSecret.Some? ==> r.shell == sh)
            && (r.shell.botSecret != sh.botSecret <==>
                  args != [] && sh.secret.Some? && ToLowerAscii(args[0]) == "start" && sh.botSecret.None?)
            && (r.shell.botSecret != sh.botSecret ==> r.shell.botSecret == sh.secret)
  {
  }

  /** The command ends the loop only when `start` initialises the bot and that throws or never returns. */
  lemma TwitchBotEnds(sh: Shell, args: seq<string>, connected: bool, init: InitOutcome, log: seq<ShellEvent>)
    ensures var r := TwitchBot(sh, args, connected, init, log);
            && log <= r.log
            && (r.end != Continue <==>
                  args != [] && sh.secret.Some? && ToLowerAscii(args[0]) == "start" && init != InitReturned)
            && (r.end == Crashed <==> r.end != Continue && init == InitThrew)
  {
  }

  /** A second `start` reuses the bot the first one created. */
  lemma StartTwice(sh: Shell, a1: seq<string>, c1: bool, a2: seq<string>, c2: bool, i2: InitOutcome, log: seq<ShellEvent>)
    requires a1 != [] && ToLowerAscii(a1[0]) == "start" && sh.secret.Some?
    ensures var r1 := TwitchBot(sh, a1, c1, InitReturned, log);
            var r2 := TwitchBot(r1.shell, a2, c2, i2, r1.log);
            && r1.shell.botSecret.Some?
            && r2.shell == r1.shell
            && BotCreated !in r2.log[|r1.log|..]
  {
  }

  // ---------------------------------------------------------------- the command loop

  /** A line on which the loop can stop: `secret` whose keys never reach Enter, or `twitchbot start`
      whose initialisation throws or never returns. */
  predicate MayStop(input: ConsoleInput) {
    var p := ParseLine(input.line);
    && p.CommandLine?
    && (|| (Lookup(p.cmd) == Some(SecretCommand) && !ReadSecret(input.keys).complete)
        || (Lookup(p.cmd) == Some(TwitchBotCommand) && p.args != [] && ToLowerAscii(p.args[0]) == "start"
            && input.init != InitReturned))
  }

  /** One line: the log only grows; the loop stops only on a line that may stop it, and crashes only
      when initialising the bot throws. */
  lemma ProcessLineEnds(sh: Shell, input: ConsoleInput, log: seq<ShellEvent>)
    ensures var r := ProcessLine(sh, input, log);
            && log <= r.log
            && (r.end != Continue ==> MayStop(input))
            && (r.end == Crashed ==> input.init == InitThrew)
  {
    var p := ParseLine(input.line);
    if p.CommandLine? && Lookup(p.cmd) == Some(TwitchBotCommand) {
      TwitchBotEnds(sh, p.args, input.connected, input.init, log);
    }
  }

  /** One line keeps the bot: once a bot exists, it keeps the secret it was created with, even when
      `secret` later replaces the client secret. */
  lemma ProcessLineKeepsBot(sh: Shell, input: ConsoleInput, log: seq<ShellEvent>)
    requires sh.botSecret.Some?
    ensures ProcessLine(sh, input, log).shell.botSecret == sh.botSecret
  {
    var p := ParseLine(input.line);
    if p.CommandLine? && Lookup(p.cmd) == Some(TwitchBotCommand) {
      TwitchBotBot(sh, p.args, input.connected, input.init, log);
    }
  }

  /** The loop processes every line unless one stops it; then that line is the last one processed, and
      it is one that may stop the loop. The log only grows. */
  lemma {:induction false} RunEnds(sh: Shell, inputs: seq<ConsoleInput>, log: seq<ShellEvent>)
    ensures var run := RunConsole(sh, inputs, log);
            && run.processed <= |inputs|
            && log <= run.log
            && (run.end == Continue ==> run.processed == |inputs|)
            && (run.end != Continue ==> 0 < run.processed && MayStop(inputs[run.processed - 1]))
            && (run.end == Crashed ==> inputs[run.processed - 1].init == InitThrew)
    decreases |inputs|
  {
    if inputs != [] {
      var n := |inputs| - 1;
      var before := RunConsole(sh, inputs[..n], log);
      RunEnds(sh, inputs[..n], log);
      if before.end != Continue {
        assert inputs[..n][before.processed - 1] == inputs[before.processed - 1];
      } else {
        ProcessLineEnds(before.shell, inputs[n], before.log);
      }
    }
  }

  /** Once a bot exists, every later line leaves it with the secret it was created with. */
  lemma {:induction false} RunKeepsBot(sh: Shell, inputs: seq<ConsoleInput>, log: seq<ShellEvent>)
    requires sh.botSecret.Some?
    ensures RunConsole(sh, inputs, log).shell.botSecret == sh.botSecret
    decreases |inputs|
  {
    if inputs != [] {
      var n := |inputs| - 1;
      var before := RunConsole(sh, inputs[..n], log);
      RunKeepsBot(sh, inputs[..n], log);
      if before.end == Continue {
        ProcessLineKeepsBot(before.shell, inputs[n], before.log);
      }
    }
  }
}
