/** The console front end of Program.cs as values: the key events of the masked secret editor and what
    they make of the secret and of the echo, the splitting of a command line into words, the
    case-insensitive command table and the guards of the `twitchbot` command. The class in program.dfy
    is proved to behave exactly as the functions here say. */
module ConsoleSpec {
  import opened AuthTypes

  // ---------------------------------------------------------------- keys and the secret editor

  /** The `ConsoleKey` values the editor tells apart. */
  datatype ConsoleKey = Enter | Backspace | OtherKey

  /** `ConsoleKeyInfo`: the key pressed and the character it produced. */
  datatype KeyInfo = KeyInfo(key: ConsoleKey, keyChar: char)

  /** `char.IsControl`: the characters of Unicode category Cc. */
  predicate IsControl(c: char) {
    c as int < 0x20 || 0x7F <= c as int <= 0x9F
  }

  /** What the editor shows for a removed character: back, blank, back. */
  const Erase: string := "\U{8} \U{8}"

  /** The effect of one key other than Enter on the secret typed so far: Backspace removes the last
      character when there is one; otherwise a character that is not a control character is appended.
      Anything else is ignored. The second component is what the key echoes. */
  function EditStep(input: string, k: KeyInfo): (string, string) {
    if k.key == Backspace && |input| > 0 then (input[..|input| - 1], Erase)
    else if !IsControl(k.keyChar) then (input + [k.keyChar], "*")
    else (input, "")
  }

  /** The position of the first Enter, or the number of keys when there is none. */
  function FirstEnter(keys: seq<KeyInfo>): (n: nat)
    ensures n <= |keys|
    ensures n < |keys| ==> keys[n].key == Enter
    ensures forall i | 0 <= i < n :: keys[i].key != Enter
  {
    if keys == [] then 0
    else if keys[0].key == Enter then 0
    else 1 + FirstEnter(keys[1..])
  }

  /** The secret after the editor has processed `keys`, none of which is Enter. */
  function Typed(keys: seq<KeyInfo>): string {
    if keys == [] then "" else EditStep(Typed(keys[..|keys| - 1]), keys[|keys| - 1]).0
  }

  /** What the editor has echoed after processing `keys`. */
  function Echo(keys: seq<KeyInfo>): string {
    if keys == [] then ""
    else Echo(keys[..|keys| - 1]) + EditStep(Typed(keys[..|keys| - 1]), keys[|keys| - 1]).1
  }

  /** `ReadSecretFromConsole` on a stream of keys: the secret typed before the first Enter, its echo, and
      whether an Enter came at all (without one, `ReadKey` waits forever). */
  datatype SecretRead = SecretRead(secret: string, echo: string, complete: bool)

  function ReadSecret(keys: seq<KeyInfo>): SecretRead {
    var n := FirstEnter(keys);
    SecretRead(Typed(keys[..n]), Echo(keys[..n]), n < |keys|)
  }

  // ---------------------------------------------------------------- command lines

  /** `char.IsWhiteSpace`: the characters of Unicode categories Zs, Zl and Zp, and the controls
      U+0009 to U+000D, U+0085. */
  predicate IsWhiteSpace(c: char) {
    var n := c as int;
    || 0x09 <= n <= 0x0D || n == 0x20 || n == 0x85 || n == 0xA0 || n == 0x1680
    || 0x2000 <= n <= 0x200A || n == 0x2028 || n == 0x2029 || n == 0x202F || n == 0x205F || n == 0x3000
  }

  /** `string.IsNullOrWhiteSpace`. */
  predicate IsNullOrWhiteSpace(line: Option<string>) {
    line.None? || forall i | 0 <= i < |line.value| :: IsWhiteSpace(line.value[i])
  }

  /** The longest prefix of `s` without a space. */
  function Word(s: string): (w: string)
    ensures |w| <= |s| && w == s[..|w|]
    ensures forall i | 0 <= i < |w| :: w[i] != ' '
    ensures |w| < |s| ==> s[|w|] == ' '
  {
    if s == [] || s[0] == ' ' then [] else [s[0]] + Word(s[1..])
  }

  /** `s.Split(' ', StringSplitOptions.RemoveEmptyEntries)`. */
  function Split(s: string): (words: seq<string>)
    ensures forall i | 0 <= i < |words| :: words[i] != [] && forall j | 0 <= j < |words[i]| :: words[i][j] != ' '
    decreases |s|
  {
    if s == [] then []
    else if s[0] == ' ' then Split(s[1..])
    else
      var w := Word(s);
      [w] + Split(s[|w|..])
  }

  /** A line of console input, once read: nothing to do, or a command word and its arguments. */
  datatype ParsedLine = Blank | CommandLine(cmd: string, args: seq<string>)

  /** A line with a character other than a space has at least one word. */
  lemma {:induction false} SplitFindsWord(s: string, k: nat)
    requires k < |s| && s[k] != ' '
    ensures |Split(s)| > 0
    decreases |s|
  {
    if s[0] == ' ' {
      SplitFindsWord(s[1..], k - 1);
    }
  }

  /** The head of `RunConsoleCommandFlow`'s loop (Program.cs:25-30): a null or blank line is skipped;
      any other line has a first word, the command, and the words after it are its arguments. */
  function ParseLine(line: Option<string>): (p: ParsedLine)
    ensures p.Blank? <==> IsNullOrWhiteSpace(line)
    ensures p.CommandLine? ==> [p.cmd] + p.args == Split(line.value)
  {
    if IsNullOrWhiteSpace(line) then Blank
    else
      var k :| 0 <= k < |line.value| && !IsWhiteSpace(line.value[k]);
      SplitFindsWord(line.value, k);
      var parts := Split(line.value);
      CommandLine(parts[0], parts[1..])
  }

  /** The commands of the table of Program.cs:16-21. */
  datatype Command = SecretCommand | TwitchBotCommand

  /** ASCII upper case; other characters are left as they are. */
  function ToUpperAscii(c: char): char {
    if 'a' <= c <= 'z' then (c as int - 32) as char else c
  }

  /** ASCII lower case `ToLower`; other characters are left as they are. */
  function ToLowerAscii(s: string): (r: string)
    ensures |r| == |s|
  {
    if s == [] then [] else [if 'A' <= s[0] <= 'Z' then (s[0] as int + 32) as char else s[0]] + ToLowerAscii(s[1..])
  }

  /** `StringComparer.OrdinalIgnoreCase` equality, on ASCII case. */
  predicate EqualsIgnoreCase(a: string, b: string) {
    |a| == |b| && forall i | 0 <= i < |a| :: ToUpperAscii(a[i]) == ToUpperAscii(b[i])
  }

  /** `commands.TryGetValue(cmd, out var action)`. */
  function Lookup(cmd: string): Option<Command> {
    if EqualsIgnoreCase(cmd, "secret") then Some(SecretCommand)
    else if EqualsIgnoreCase(cmd, "twitchbot") then Some(TwitchBotCommand)
    else None
  }

  // ---------------------------------------------------------------- the shell

  /** How `TwitchBot.InitializeAsync`, which is not part of this model, ends: it returns (true or false,
      which the caller ignores), throws, or never returns. */
  datatype InitOutcome = InitReturned | InitThrew | InitBlocked

  /** What the world answers while one line is processed: the line `ReadLine` returns, the keys typed
      if the line asks for the secret, whether the bot reports itself connected, and how initialising
      the bot ends. */
  datatype ConsoleInput = ConsoleInput(line: Option<string>, keys: seq<KeyInfo>, connected: bool, init: InitOutcome)

  /** The static fields of `Program`, as values: the client secret, and the secret the bot was created
      with, when there is a bot. */
  datatype Shell = Shell(secret: Option<string>, botSecret: Option<string>)

  /** What the shell does that can be seen. */
  datatype ShellEvent =
    | UnknownCommand(cmd: string)   // "Unknown command: ..."
    | SecretStored                  // "Client secret set."
    | UsagePrinted                  // the usage of `twitchbot`
    | NotConnectedWarned            // "Bot is not connected or not authenticated!"
    | SecretMissingWarned           // "Client Secret not set! Do 'secret'"
    | BotCreated                    // `new TwitchBot(CLIENT_ID, clientSecret)`
    | BotInitialising               // `twitchBot.InitializeAsync()` is called

  /** How processing a line ends: the loop goes on, an exception escapes it, or it never returns. */
  datatype LineEnd = Continue | Crashed | Hung

  datatype ShellStep = ShellStep(shell: Shell, log: seq<ShellEvent>, end: LineEnd)

  /** The `twitchbot` command (Program.cs:44-75). */
  function TwitchBot(sh: Shell, args: seq<string>, connected: bool, init: InitOutcome, log: seq<ShellEvent>): ShellStep {
    if args == [] then ShellStep(sh, log + [UsagePrinted], Continue)
    else
      var warned := if sh.botSecret.None? || !connected then log + [NotConnectedWarned] else log;
      if sh.secret.None? then ShellStep(sh, warned + [SecretMissingWarned], Continue)
      else if ToLowerAscii(args[0]) == "start" then
        var created := if sh.botSecret.None? then ShellStep(sh.(botSecret := sh.secret), warned + [BotCreated], Continue)
                       else ShellStep(sh, warned, Continue);
        ShellStep(created.shell, created.log + [BotInitialising],
                  if init == InitReturned then Continue else if init == InitThrew then Crashed else Hung)
      else ShellStep(sh, warned, Continue)
  }

  /** The `secret` command (Program.cs:77-83): the secret is replaced once Enter is pressed. */
  function SetClientSecret(sh: Shell, keys: seq<KeyInfo>, log: seq<ShellEvent>): ShellStep {
    var read := ReadSecret(keys);
    if !read.complete then ShellStep(sh, log, Hung)
    else ShellStep(sh.(secret := Some(read.secret)), log + [SecretStored], Continue)
  }

  /** One iteration of `RunConsoleCommandFlow`'s loop (Program.cs:25-39). */
  function ProcessLine(sh: Shell, input: ConsoleInput, log: seq<ShellEvent>): ShellStep {
    match ParseLine(input.line)
    case Blank => ShellStep(sh, log, Continue)
    case CommandLine(cmd, args) =>
      match Lookup(cmd)
      case None => ShellStep(sh, log + [UnknownCommand(cmd)], Continue)
      case Some(SecretCommand) => SetClientSecret(sh, input.keys, log)
      case Some(TwitchBotCommand) => TwitchBot(sh, args, input.connected, input.init, log)
  }

  /** How a run of the loop over a finite stream of lines stands: the lines it processed, and whether it
      is still waiting for more or ended. */
  datatype ShellRun = ShellRun(shell: Shell, log: seq<ShellEvent>, processed: nat, end: LineEnd)

  /** `RunConsoleCommandFlow` over a sequence of lines: a line is processed only while every earlier
      one let the loop continue. */
  function RunConsole(sh: Shell, inputs: seq<ConsoleInput>, log: seq<ShellEvent>): ShellRun
    decreases |inputs|
  {
    if inputs == [] then ShellRun(sh, log, 0, Continue)
    else
      var before := RunConsole(sh, inputs[..|inputs| - 1], log);
      if before.end != Continue then before
      else
        var step := ProcessLine(before.shell, inputs[|inputs| - 1], before.log);
        ShellRun(step.shell, step.log, before.processed + 1, step.end)
  }
}
