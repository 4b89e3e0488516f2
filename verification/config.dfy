/** Run configuration, read once from the environment when the hooks file
    loads: which browser engine to launch, whether to run headless, and the
    default step timeout. An environment variable that is not set is `None`. */
module Config {
  import opened Js

  datatype Engine = Chromium | Firefox | Webkit

  /** The three variables the hooks read: `BROWSER`, `HEADLESS` and
      `E2E_TIMEOUT_MS`. */
  datatype Env = Env(browser: Option<string>, headless: Option<string>, timeoutMs: Option<string>)

  const DefaultBrowserName: string := "chromium"
  const DefaultTimeoutMs: nat := 30000

  /** `(process.env.BROWSER || "chromium").toLowerCase()`: an unset or empty
      variable falls back to the default name. */
  function BrowserName(v: Option<string>): (name: string)
    ensures v.None? || v == Some("") ==> name == DefaultBrowserName
    ensures v.Some? && v.value != "" ==> name == ToLower(v.value)
  {
    var raw := if v.Some? && v.value != "" then v.value else DefaultBrowserName;
    assert ToLower(DefaultBrowserName) == DefaultBrowserName;
    ToLower(raw)
  }

  function EngineName(e: Engine): string {
    match e
    case Chromium => "chromium"
    case Firefox => "firefox"
    case Webkit => "webkit"
  }

  /** `browserMap[browserName] || chromium`: the three engines by name, and
      chromium for any other name. */
  function Launcher(name: string): (e: Engine)
    ensures name == "firefox" <==> e == Firefox
    ensures name == "webkit" <==> e == Webkit
    ensures e == Chromium <==> name !in {"firefox", "webkit"}
  {
    if name == "firefox" then Firefox
    else if name == "webkit" then Webkit
    else Chromium
  }

  /** Naming an engine selects it: the launcher table and the engine names
      are inverse to each other. */
  lemma LauncherSelectsNamedEngine(e: Engine)
    ensures Launcher(EngineName(e)) == e
    ensures Launcher(BrowserName(Some(EngineName(e)))) == e
  {
    assert ToLower(EngineName(e)) == EngineName(e);
  }

  /** `process.env.HEADLESS !== "false"`: only the exact lower-case string
      turns headless mode off. */
  function Headless(v: Option<string>): (headless: bool)
    ensures !headless <==> v == Some("false")
  {
    v != Some("false")
  }

  /** "FALSE", "0" or "no" leave the browser headless. */
  lemma HeadlessOnlyExactFalse()
    ensures Headless(Some("FALSE")) && Headless(Some("0")) && Headless(Some("no"))
    ensures Headless(None) && Headless(Some(""))
  {
  }

  /** A step timeout: a whole number of milliseconds, or a value `Number`
      would read as something other than a whole decimal number (a sign, a
      fraction, an exponent, a hexadecimal literal, NaN), which is not
      modelled further. */
  datatype Timeout = Millis(ms: nat) | Unmodelled(text: string)

  /** `Number(s)` for a string. */
  function NumberOfString(s: string): (t: Timeout)
    ensures Trim(s) == "" ==> t == Millis(0)
    ensures Trim(s) != "" && AllDigits(Trim(s)) ==> t == Millis(DigitsValue(Trim(s)))
  {
    var body := Trim(s);
    if body == "" then Millis(0)
    else if AllDigits(body) then Millis(DigitsValue(body))
    else Unmodelled(body)
  }

  /** `Number(process.env.E2E_TIMEOUT_MS || 30_000)`: unset or empty falls
      back to 30000. */
  function StepTimeout(v: Option<string>): (t: Timeout)
    ensures v.None? || v == Some("") ==> t == Millis(DefaultTimeoutMs)
  {
    if v.Some? && v.value != "" then NumberOfString(v.value) else Millis(DefaultTimeoutMs)
  }

  /** A rendered number of milliseconds is read back as itself; a value of
      blanks alone is read as 0, not as the default. */
  lemma StepTimeoutRoundTrip(n: nat)
    ensures StepTimeout(Some(NatToString(n))) == Millis(n)
    ensures StepTimeout(Some(" ")) == Millis(0)
  {
    var d := NatToString(n);
    DigitIsNotSpace(d[0]);
    DigitIsNotSpace(d[|d| - 1]);
    TrimOfTrimmed(d);
    NatToStringValue(n);
    assert Trim(" ") == "";
  }

  datatype RunConfig = RunConfig(engine: Engine, headless: bool, timeout: Timeout)

  /** The configuration the hooks run with. */
  function Resolve(env: Env): (c: RunConfig)
    ensures c.engine == Launcher(BrowserName(env.browser))
    ensures c.headless == Headless(env.headless)
    ensures c.timeout == StepTimeout(env.timeoutMs)
  {
    RunConfig(Launcher(BrowserName(env.browser)), Headless(env.headless), StepTimeout(env.timeoutMs))
  }

  /** With nothing set, the run is headless chromium with a 30 second step
      timeout; the engine name is matched without regard to ASCII case, and
      an unknown name runs chromium. */
  lemma ResolveDefaults(s: string)
    ensures Resolve(Env(None, None, None)) == RunConfig(Chromium, true, Millis(DefaultTimeoutMs))
    ensures Resolve(Env(Some("FireFox"), None, None)).engine == Firefox
    ensures ToLower(s) !in {"firefox", "webkit"} ==> Resolve(Env(Some(s), None, None)).engine == Chromium
  {
    assert ToLower("FireFox") == "firefox";
    assert ToLower(DefaultBrowserName) == DefaultBrowserName;
  }
}
