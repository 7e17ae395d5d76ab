/**
 * Start-up normalisation of the instance configuration done by `main`
 * (main.js:372-406): the default owner is made a fully qualified user id,
 * the repository refresh interval is parsed with JavaScript's `parseInt`,
 * and the two start-up decisions (apply rights, start the refresh cycle)
 * are taken.
 */
module Settings {
  import opened Wrappers
  import opened Strings

  const UserPrefix: string := "system.user."

  /**
   * `defaultUser || 'admin'` followed by the `^system\.user\.` test
   * (main.js:376-379). `None` stands for `undefined`/`null`; the empty
   * string is falsy in JavaScript and is replaced by `admin` as well.
   */
  function NormalizeUser(raw: Option<string>): (r: string)
    ensures HasPrefix(r, UserPrefix)
    ensures raw.None? || raw == Some("") ==> r == "system.user.admin"
    ensures raw.Some? && HasPrefix(raw.value, UserPrefix) ==> r == raw.value
    ensures raw.Some? && raw.value != "" && !HasPrefix(raw.value, UserPrefix) ==> r == UserPrefix + raw.value
  {
    var u := if raw.None? || raw.value == "" then "admin" else raw.value;
    if HasPrefix(u, UserPrefix) then u
    else
      assert (UserPrefix + u)[..|UserPrefix|] == UserPrefix;
      UserPrefix + u
  }

  /** Normalising an already normalised owner changes nothing. */
  lemma NormalizeUserIdempotent(raw: Option<string>)
    ensures NormalizeUser(Some(NormalizeUser(raw))) == NormalizeUser(raw)
  {
  }

  // ---------------------------------------------------------------------------
  // parseInt(x, 10)

  /** The characters `parseInt` skips as leading white space (WhiteSpace and LineTerminator). */
  predicate IsJsSpace(c: char) {
    || c == ' ' || c == '\t' || c == '\n' || c == '\r' || c == '\U{B}' || c == '\U{C}'
    || c == '\U{A0}' || c == '\U{1680}' || ('\U{2000}' <= c <= '\U{200A}')
    || c == '\U{2028}' || c == '\U{2029}' || c == '\U{202F}' || c == '\U{205F}'
    || c == '\U{3000}' || c == '\U{FEFF}'
  }

  predicate AllSpace(s: string) {
    forall i :: 0 <= i < |s| ==> IsJsSpace(s[i])
  }

  predicate IsDigit(c: char) {
    '0' <= c <= '9'
  }

  /** `s` without its leading white space. */
  function TrimStart(s: string): (r: string)
    ensures |r| <= |s| && r == s[|s| - |r|..]
    ensures AllSpace(s[..|s| - |r|])
    ensures r != [] ==> !IsJsSpace(r[0])
  {
    if s != [] && IsJsSpace(s[0]) then
      var r := TrimStart(s[1..]);
      assert s[..|s| - |r|] == [s[0]] + s[1..][..|s| - 1 - |r|];
      r
    else s
  }

  predicate AllDigits(s: string) {
    forall i :: 0 <= i < |s| ==> IsDigit(s[i])
  }

  /** The length of the longest prefix of `s` made of decimal digits. */
  function DigitRun(s: string): (n: nat)
    ensures n <= |s|
    ensures AllDigits(s[..n])
    ensures n < |s| ==> !IsDigit(s[n])
  {
    if s != [] && IsDigit(s[0]) then
      var n := 1 + DigitRun(s[1..]);
      assert s[..n] == [s[0]] + s[1..][..n - 1];
      n
    else 0
  }

  /** The value of a string of decimal digits, most significant first. */
  function DigitsValue(d: string): nat
    requires AllDigits(d)
  {
    if d == [] then 0
    else
      assert IsDigit(d[|d| - 1]) && AllDigits(d[..|d| - 1]);
      10 * DigitsValue(d[..|d| - 1]) + (d[|d| - 1] as int - '0' as int)
  }

  /** `t` without its one leading sign, if it has one. */
  function Unsigned(t: string): string {
    if t != [] && (t[0] == '-' || t[0] == '+') then t[1..] else t
  }

  /** The value of the digit run `body` starts with; `None` when it starts with no digit. */
  function LeadingValue(body: string): (r: Option<nat>)
    ensures r.None? <==> DigitRun(body) == 0
  {
    var n := DigitRun(body);
    if n == 0 then None else Some(DigitsValue(body[..n]))
  }

  /**
   * `parseInt(s, 10)`: leading white space is skipped, one sign is read, then
   * the longest run of decimal digits; `None` is `NaN` (no digit at all).
   */
  function ParseInt(s: string): (r: Option<int>)
    ensures r.None? <==> DigitRun(Unsigned(TrimStart(s))) == 0
  {
    var t := TrimStart(s);
    match LeadingValue(Unsigned(t))
    case None => None
    case Some(v) => Some(if t != [] && t[0] == '-' then -(v as int) else v)
  }

  /** `String(n)` for an integer: its decimal digits, with a leading `-` when negative. */
  function Decimal(n: int): (s: string)
  {
    if n < 0 then "-" + NatDecimal(-n) else NatDecimal(n)
  }

  function NatDecimal(n: nat): (s: string)
    ensures s != [] && AllDigits(s)
  {
    var d := ['0' + (n % 10) as char];
    if n < 10 then d else NatDecimal(n / 10) + d
  }

  lemma {:induction false} NatDecimalValue(n: nat)
    ensures DigitsValue(NatDecimal(n)) == n
  {
    var s := NatDecimal(n);
    if n >= 10 {
      assert s[..|s| - 1] == NatDecimal(n / 10);
      NatDecimalValue(n / 10);
    }
  }

  lemma {:induction false} DigitRunOfDigits(s: string)
    requires AllDigits(s)
    ensures DigitRun(s) == |s|
  {
    if s != [] {
      assert AllDigits(s[1..]);
      DigitRunOfDigits(s[1..]);
    }
  }

  /** A string of digits is read whole. */
  lemma LeadingValueOfDigits(d: string)
    requires d != [] && AllDigits(d)
    ensures LeadingValue(d) == Some(DigitsValue(d))
  {
    DigitRunOfDigits(d);
    assert d[..|d|] == d;
  }

  /** `parseInt` reads a string that starts with a sign or a digit from its first character. */
  lemma TrimStartKeeps(t: string)
    requires t != [] && (IsDigit(t[0]) || t[0] == '-')
    ensures TrimStart(t) == t
  {
  }

  lemma ParseIntOfDigits(digits: string)
    requires digits != [] && AllDigits(digits)
    ensures ParseInt(digits) == Some(DigitsValue(digits))
  {
    assert IsDigit(digits[0]);
    TrimStartKeeps(digits);
    LeadingValueOfDigits(digits);
  }

  lemma ParseIntOfNegative(t: string)
    requires |t| >= 2 && t[0] == '-' && AllDigits(t[1..])
    ensures ParseInt(t) == Some(-(DigitsValue(t[1..]) as int))
  {
    TrimStartKeeps(t);
    LeadingValueOfDigits(t[1..]);
  }

  /** Leading white space in front of a non-space character is all `TrimStart` removes. */
  lemma {:induction false} TrimStartSkips(ws: string, t: string)
    requires AllSpace(ws)
    requires t != [] && !IsJsSpace(t[0])
    ensures TrimStart(ws + t) == t
  {
    if ws != [] {
      assert (ws + t)[1..] == ws[1..] + t;
      assert IsJsSpace(ws[0]) && AllSpace(ws[1..]);
      TrimStartSkips(ws[1..], t);
    } else {
      assert ws + t == t;
    }
  }

  /** The digit run of `d + rest` is `d` when `rest` does not go on with a digit. */
  lemma {:induction false} DigitRunStops(d: string, rest: string)
    requires AllDigits(d)
    requires rest == [] || !IsDigit(rest[0])
    ensures DigitRun(d + rest) == |d|
  {
    if d != [] {
      assert (d + rest)[1..] == d[1..] + rest;
      assert AllDigits(d[1..]);
      DigitRunStops(d[1..], rest);
    } else {
      assert d + rest == rest;
    }
  }

  /** The value `parseInt` reads from `d + rest` is that of `d`. */
  lemma LeadingValueStops(d: string, rest: string)
    requires d != [] && AllDigits(d)
    requires rest == [] || !IsDigit(rest[0])
    ensures LeadingValue(d + rest) == Some(DigitsValue(d))
  {
    DigitRunStops(d, rest);
    assert (d + rest)[..|d|] == d;
  }

  /** An optional sign in front of digits: it is read as the sign, and the digits follow it. */
  lemma SignedDigits(sign: string, body: string)
    requires sign == "" || sign == "+" || sign == "-"
    requires body != [] && IsDigit(body[0])
    ensures var t := sign + body;
      t != [] && !IsJsSpace(t[0]) && Unsigned(t) == body && (t[0] == '-' <==> sign == "-")
  {
    var t := sign + body;
    if sign == "" {
      assert t == body;
    } else {
      assert t[0] == sign[0] && t[1..] == body;
    }
  }

  /** What `parseInt` reads once the leading white space is gone. */
  lemma ParseIntAfterTrim(s: string, sign: string, d: string, rest: string)
    requires sign == "" || sign == "+" || sign == "-"
    requires d != [] && AllDigits(d)
    requires rest == [] || !IsDigit(rest[0])
    requires TrimStart(s) == sign + (d + rest)
    ensures ParseInt(s) == Some(if sign == "-" then -(DigitsValue(d) as int) else DigitsValue(d))
  {
    var body := d + rest;
    assert body[0] == d[0] && IsDigit(d[0]);
    SignedDigits(sign, body);
    LeadingValueStops(d, rest);
    var t := TrimStart(s);
    assert LeadingValue(Unsigned(t)) == Some(DigitsValue(d));
    assert t != [] && (t[0] == '-' <==> sign == "-");
  }

  /**
   * `parseInt` on any input of the form white space, an optional sign, a
   * run of digits, and anything that does not go on with a digit: the value
   * of the digits, negated after a minus sign.
   */
  lemma ParseIntValue(ws: string, sign: string, d: string, rest: string)
    requires AllSpace(ws)
    requires sign == "" || sign == "+" || sign == "-"
    requires d != [] && AllDigits(d)
    requires rest == [] || !IsDigit(rest[0])
    ensures ParseInt(ws + (sign + (d + rest))) == Some(if sign == "-" then -(DigitsValue(d) as int) else DigitsValue(d))
  {
    SignedStart(sign, d, rest);
    TrimStartSkips(ws, sign + (d + rest));
    ParseIntAfterTrim(ws + (sign + (d + rest)), sign, d, rest);
  }

  /** A sign or a digit is not white space, so trimming stops there. */
  lemma SignedStart(sign: string, d: string, rest: string)
    requires sign == "" || sign == "+" || sign == "-"
    requires d != [] && AllDigits(d)
    ensures var t := sign + (d + rest); t != [] && !IsJsSpace(t[0])
  {
    assert (d + rest)[0] == d[0] && IsDigit(d[0]);
    SignedDigits(sign, d + rest);
  }

  /** `parseInt(String(n), 10) === n`: a number setting reads back as itself. */
  lemma {:induction false} ParseIntOfDecimal(n: int)
    ensures ParseInt(Decimal(n)) == Some(n)
  {
    var m: nat := if n < 0 then -n else n;
    NatDecimalValue(m);
    if n < 0 {
      assert Decimal(n)[1..] == NatDecimal(m);
      ParseIntOfNegative(Decimal(n));
    } else {
      ParseIntOfDigits(NatDecimal(m));
    }
  }

  // ---------------------------------------------------------------------------
  // autoUpdate

  /** What the stored `autoUpdate` setting may hold. */
  datatype RawSetting = Unset | Number(n: int) | Text(s: string)

  /**
   * main.js:398-403 as written: `undefined`/`null` becomes 24, then
   * `parseInt(autoUpdate, 10) || 0`. A number is turned into its decimal
   * string first, as `parseInt` does; `NaN` and `0` are falsy and give 0.
   * A negative reading is truthy and is kept.
   */
  function ParseAutoUpdate(raw: RawSetting): (hours: int)
    ensures raw.Unset? ==> hours == 24
    ensures raw.Number? ==> hours == raw.n
    ensures raw.Text? ==> hours == ParseInt(raw.s).GetOr(0)
  {
    var parsed := match raw
      case Unset => (ParseIntOfDecimal(24); ParseInt(Decimal(24)))
      case Number(n) => (ParseIntOfDecimal(n); ParseInt(Decimal(n)))
      case Text(s) => ParseInt(s);
    parsed.GetOr(0)
  }

  /**
   * The refresh interval in hours as the rest of the model uses it: the
   * parsed value, with a negative reading treated as 0 (refresh disabled).
   */
  function AutoUpdateHours(raw: RawSetting): (hours: nat)
    ensures ParseAutoUpdate(raw) >= 0 ==> hours == ParseAutoUpdate(raw)
    ensures ParseAutoUpdate(raw) < 0 ==> hours == 0
  {
    var h := ParseAutoUpdate(raw);
    if h < 0 then 0 else h
  }

  /** A text setting with a minus sign and digits parses to a negative interval. */
  lemma NegativeTextIsKept()
    ensures ParseAutoUpdate(Text("-5")) == -5
    ensures AutoUpdateHours(Text("-5")) == 0
  {
    var t := "-5";
    assert t[1..] == "5" && "5"[..0] == [];
    ParseIntOfNegative(t);
  }

  // ---------------------------------------------------------------------------
  // start-up decisions

  datatype RawConfig = RawConfig(
    defaultUser: Option<string>,
    autoUpdate: RawSetting,
    accessApplyRights: bool,
    accessLimit: bool,
    auth: bool)

  datatype Startup = Startup(
    defaultUser: string,   // the normalised owner
    autoUpdate: nat,       // refresh interval in hours, 0 = no recurring refresh
    applyRights: bool,     // `applyRights(adapter)` is called
    register: bool)        // `updateRegister()` is called

  /**
   * What `main` decides (main.js:376-379, 393-405): rights are applied only
   * when the option is on, access is limited, authentication is off and the
   * owner is not the administrator; the refresh cycle starts only for a
   * non-zero interval.
   */
  function Main(raw: RawConfig): (s: Startup)
    ensures s.defaultUser == NormalizeUser(raw.defaultUser) && HasPrefix(s.defaultUser, UserPrefix)
    ensures s.autoUpdate == AutoUpdateHours(raw.autoUpdate)
    ensures ParseAutoUpdate(raw.autoUpdate) < 0 ==> !s.register
    ensures s.applyRights <==> raw.accessApplyRights && raw.accessLimit && !raw.auth && s.defaultUser != "system.user.admin"
    ensures s.register <==> s.autoUpdate > 0
    ensures raw.autoUpdate.Unset? ==> s.register && s.autoUpdate == 24
    ensures raw.defaultUser.None? ==> !s.applyRights
  {
    var user := NormalizeUser(raw.defaultUser);
    var hours := AutoUpdateHours(raw.autoUpdate);
    Startup(user, hours,
      raw.accessApplyRights && raw.accessLimit && !raw.auth && user != "system.user.admin",
      hours != 0)
  }
}
