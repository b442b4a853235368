/** The static state of Program.cs and its console loop: `clientSecret` and `twitchBot` are fields that
    the methods update in place, and every method is proved to leave exactly the state, emit exactly
    the events and end exactly as the function of the same name in ConsoleSpec says. The console is
    the sequence of lines and keys it would return. */
module ProgramModel {
  import opened AuthTypes
  import opened ConsoleSpec

  /** `CLIENT_ID` (Program.cs:5). */
  const ClientId: string := "cnfaczx3u66tev6siqdv7fm33224a0"

  /** A `TwitchBot`; TwitchBot.cs is not part of this model, so a bot is only the credentials it was
      created with. */
  class Bot {
    const clientId: string
    const clientSecret: string

    constructor (clientId: string, clientSecret: string)
      ensures this.clientId == clientId && this.clientSecret == clientSecret
    {
      this.clientId := clientId;
      this.clientSecret := clientSecret;
    }
  }

  class Program {
    var clientSecret: Option<string>
    var twitchBot: Bot?
    /** What the shell has done that can be seen, in order. */
    ghost var log: seq<ShellEvent>

    /** The static fields, as a value. */
    function State(): Shell
      reads this
    {
      Shell(clientSecret, if twitchBot == null then None else Some(twitchBot.clientSecret))
    }

    /** The static initialisers of Program.cs:6-7. */
    constructor ()
      ensures State() == Shell(None, None) && twitchBot == null && log == []
    {
      clientSecret := None;
      twitchBot := null;
      log := [];
    }

    /** `ReadSecretFromConsole` (Program.cs:86-110) over the keys `ReadKey` returns. */
    static method ReadSecretFromConsole(keys: seq<KeyInfo>) returns (secret: string, echo: string, complete: bool)
      ensures SecretRead(secret, echo, complete) == ReadSecret(keys)
    {
      secret, echo := "", "";
      var i := 0;
      while true
        invariant 0 <= i <= FirstEnter(keys)
        invariant secret == Typed(keys[..i]) && echo == Echo(keys[..i])
        decreases |keys| - i
      {
        if i == |keys| {
          // `ReadKey` waits for a key that never comes.
          return secret, echo, false;
        }
        var key := keys[i];
        if key.key == Enter {
          break;
        }
        assert keys[..i + 1][..i] == keys[..i];
        if key.key == Backspace && |secret| > 0 {
          secret := secret[..|secret| - 1];
          echo := echo + Erase;
        } else if !IsControl(key.keyChar) {
          secret := secret + [key.keyChar];
          echo := echo + "*";
        }
        i := i + 1;
      }
      complete := true;
    }

    /** `SetClientSecret` (Program.cs:77-83). */
    method SetClientSecret(keys: seq<KeyInfo>) returns (end: LineEnd)
      modifies this
      ensures var st := ConsoleSpec.SetClientSecret(old(State()), keys, old(log));
              State() == st.shell && log == st.log && end == st.end
      ensures twitchBot == old(twitchBot)
    {
      var secret, _, complete := ReadSecretFromConsole(keys);
      if !complete {
        return Hung;
      }
      clientSecret := Some(secret);
      log := log + [SecretStored];
      end := Continue;
    }

    /** `TwitchBot(string[] args)` (Program.cs:44-75). An existing bot is reused, so the bot, once
        created, is the one every later `start` initialises. */
    method TwitchBot(args: seq<string>, connected: bool, init: InitOutcome) returns (end: LineEnd)
      modifies this
      ensures var st := ConsoleSpec.TwitchBot(old(State()), args, connected, init, old(log));
              State() == st.shell && log == st.log && end == st.end
      ensures old(twitchBot) != null ==> twitchBot == old(twitchBot)
      ensures twitchBot != old(twitchBot) ==> fresh(twitchBot)
    {
      if |args| == 0 {
        log := log + [UsagePrinted];
        return Continue;
      }
      if twitchBot == null || !connected {
        log := log + [NotConnectedWarned];
      }
      if clientSecret.None? {
        log := log + [SecretMissingWarned];
        return Continue;
      }
      end := Continue;
      if ToLowerAscii(args[0]) == "start" {
        if twitchBot == null {
          twitchBot := new Bot(ClientId, clientSecret.value);
          log := log + [BotCreated];
        }
        log := log + [BotInitialising];
        end := if init == InitReturned then Continue else if init == InitThrew then Crashed else Hung;
      }
      // `stop` does nothing.
    }

    /** One pass of `RunConsoleCommandFlow`'s loop (Program.cs:23-40): parse the line and dispatch it. */
    method ProcessLine(input: ConsoleInput) returns (end: LineEnd)
      modifies this
      ensures var st := ConsoleSpec.ProcessLine(old(State()), input, old(log));
              State() == st.shell && log == st.log && end == st.end
      ensures old(twitchBot) != null ==> twitchBot == old(twitchBot)
    {
      end := Continue;
      var parsed := ParseLine(input.line);
      if parsed.CommandLine? {
        var action := Lookup(parsed.cmd);
        if action == Some(SecretCommand) {
          end := SetClientSecret(input.keys);
        } else if action == Some(TwitchBotCommand) {
          end := TwitchBot(parsed.args, input.connected, input.init);
        } else {
          log := log + [UnknownCommand(parsed.cmd)];
        }
      }
    }

    /** `RunConsoleCommandFlow` (Program.cs:14-41) over a finite stream of lines: it processes lines
        until an exception escapes a command or a command never returns. */
    method RunConsoleCommandFlow(inputs: seq<ConsoleInput>) returns (processed: nat, end: LineEnd)
      modifies this
      ensures var run := RunConsole(old(State()), inputs, old(log));
              State() == run.shell && log == run.log && processed == run.processed && end == run.end
      ensures old(twitchBot) != null ==> twitchBot == old(twitchBot)
    {
      ghost var sh0, log0 := State(), log;
      processed, end := 0, Continue;
      while processed < |inputs|
        invariant 0 <= processed <= |inputs|
        invariant var run := RunConsole(sh0, inputs[..processed], log0);
                  State() == run.shell && log == run.log && run.processed == processed && run.end == Continue
        invariant old(twitchBot) != null ==> twitchBot == old(twitchBot)
      {
        assert inputs[..processed + 1][..processed] == inputs[..processed];
        var step := ProcessLine(inputs[processed]);
        processed := processed + 1;
        if step != Continue {
          RunSettles(sh0, inputs, log0, processed);
          return processed, step;
        }
      }
      assert inputs[..processed] == inputs;
    }
  }

  /** Once the loop has ended, later lines change nothing. */
  lemma {:induction false} RunSettles(sh: Shell, inputs: seq<ConsoleInput>, log: seq<ShellEvent>, k: nat)
    requires k <= |inputs| && RunConsole(sh, inputs[..k], log).end != Continue
    ensures RunConsole(sh, inputs, log) == RunConsole(sh, inputs[..k], log)
    decreases |inputs| - k
  {
    if k < |inputs| {
      assert inputs[..k + 1][..k] == inputs[..k];
      RunSettles(sh, inputs, log, k + 1);
    } else {
      assert inputs[..k] == inputs;
    }
  }
}
