/**
 * The two Telegram messages bot.py sends in MarkdownV2 mode: the startup
 * confirmation and the aggregated alert. Parsers that read them back show
 * that the formatting loses nothing: the count and every instrument label can
 * be recovered exactly from the alert text.
 */
module Messages {
  import opened Wrappers
  import opened Markdown

  // ---------------------------------------------------------------------
  // str(n) for a natural number

  predicate IsDigit(c: char) {
    '0' <= c <= '9'
  }

  function DigitChar(d: nat): (c: char)
    requires d < 10
    ensures IsDigit(c)
  {
    ('0' as int + d) as char
  }

  function DigitValue(c: char): (d: nat)
    requires IsDigit(c)
    ensures d < 10
  {
    c as int - '0' as int
  }

  predicate AllDigits(s: string) {
    forall i :: 0 <= i < |s| ==> IsDigit(s[i])
  }

  /** Python's `str(n)`: decimal digits, most significant first, no leading zero. */
  function DecimalString(n: nat): (s: string)
    ensures |s| >= 1 && AllDigits(s)
    ensures s[0] == '0' ==> n == 0
    decreases n
  {
    if n < 10 then [DigitChar(n)]
    else DecimalString(n / 10) + [DigitChar(n % 10)]
  }

  /** The number a string of decimal digits denotes. */
  function DecimalValue(s: string): nat
    requires AllDigits(s)
    decreases |s|
  {
    if s == [] then 0
    else 10 * DecimalValue(s[..|s| - 1]) + DigitValue(s[|s| - 1])
  }

  lemma {:induction false} DecimalRoundTrip(n: nat)
    ensures DecimalValue(DecimalString(n)) == n
    decreases n
  {
    var s := DecimalString(n);
    if n >= 10 {
      DecimalRoundTrip(n / 10);
      assert s[..|s| - 1] == DecimalString(n / 10);
    }
  }

  /** Number of leading decimal digits of `s`. */
  function DigitRun(s: string): (k: nat)
    ensures k <= |s|
    ensures forall i :: 0 <= i < k ==> IsDigit(s[i])
    ensures k < |s| ==> !IsDigit(s[k])
  {
    if s == [] || !IsDigit(s[0]) then 0
    else 1 + DigitRun(s[1..])
  }

  /** The digit run of `ds + t` is `ds` when `t` does not start with a digit. */
  lemma {:induction false} DigitRunPrefix(ds: string, t: string)
    requires AllDigits(ds)
    requires t != [] && !IsDigit(t[0])
    ensures DigitRun(ds + t) == |ds|
    decreases |ds|
  {
    if ds == [] {
      assert ds + t == t;
    } else {
      var s := ds + t;
      assert s[0] == ds[0] && IsDigit(s[0]);
      assert s[1..] == ds[1..] + t;
      assert AllDigits(ds[1..]) by {
        forall i | 0 <= i < |ds| - 1 ensures IsDigit(ds[1..][i]) {
          assert ds[1..][i] == ds[i + 1];
        }
      }
      DigitRunPrefix(ds[1..], t);
    }
  }

  // ---------------------------------------------------------------------
  // The messages

  /** `sep.join(parts)`. */
  function Join(sep: string, parts: seq<string>): string
    decreases |parts|
  {
    if |parts| == 0 then ""
    else if |parts| == 1 then parts[0]
    else parts[0] + sep + Join(sep, parts[1..])
  }

  /** f'*{escape_markdown(text=name)}*': a label in bold. */
  function Emphasize(name: string): string {
    "*" + Escape(name) + "*"
  }

  function EmphasizedList(names: seq<string>): (r: seq<string>)
    ensures |r| == |names|
  {
    seq(|names|, i requires 0 <= i < |names| => Emphasize(names[i]))
  }

  /** "⚠️ Alert: " — a warning sign, its emoji selector, then the word. */
  const AlertPrefix: string := "\U{26A0}\U{FE0F} Alert: "
  const AlertMiddle: string := " instruments "
  const AlertSuffix: string := " stopped updating"
  const ListSeparator: string := ", "

  /** The alert bot.py sends for the list of failed instruments. */
  function AlertText(failed: seq<string>): string {
    AlertPrefix + (DecimalString(|failed|) + (AlertMiddle + Join(ListSeparator, EmphasizedList(failed)) + AlertSuffix))
  }

  const StartupPrefix: string := "Bot "
  const StartupSuffix: string := " initialized successfully"

  /** The startup confirmation for the bot's user name. */
  function StartupText(username: string): string {
    StartupPrefix + Escape(username) + StartupSuffix
  }

  // ---------------------------------------------------------------------
  // Reading the alert back

  /**
   * Reads escaped text up to the first unescaped `*`: the text it stands
   * for and what follows that `*`.
   */
  function ReadEmphasized(r: string): (res: Option<(string, string)>)
    ensures res.Some? ==> |res.value.1| < |r|
    decreases |r|
  {
    if r == [] then None
    else if r[0] == '*' then Some(([], r[1..]))
    else if r[0] == Backslash then
      if |r| >= 2 && IsSpecial(r[1]) then
        match ReadEmphasized(r[2..])
        case None => None
        case Some((s, rest)) => Some(([r[1]] + s, rest))
      else None
    else if IsSpecial(r[0]) then None
    else
      match ReadEmphasized(r[1..])
      case None => None
      case Some((s, rest)) => Some(([r[0]] + s, rest))
  }

  /** Reads a non-empty `", "`-separated list of emphasized labels. */
  function ParseNames(r: string): Option<seq<string>>
    decreases |r|
  {
    if r == [] || r[0] != '*' then None
    else
      match ReadEmphasized(r[1..])
      case None => None
      case Some((name, rest)) =>
        if rest == [] then Some([name])
        else if |rest| >= 2 && rest[..2] == ListSeparator then
          match ParseNames(rest[2..])
          case None => None
          case Some(names) => Some([name] + names)
        else None
  }

  /** Reads the count and the labels back out of an alert. */
  function ParseAlert(text: string): Option<(nat, seq<string>)> {
    if |text| < |AlertPrefix| || text[..|AlertPrefix|] != AlertPrefix then None
    else
      var body := text[|AlertPrefix|..];
      var k := DigitRun(body);
      var rest := body[k..];
      if k == 0 || |rest| < |AlertMiddle| + |AlertSuffix|
         || rest[..|AlertMiddle|] != AlertMiddle
         || rest[|rest| - |AlertSuffix|..] != AlertSuffix
      then None
      else
        match ParseNames(rest[|AlertMiddle|..|rest| - |AlertSuffix|])
        case None => None
        case Some(names) => Some((DecimalValue(body[..k]), names))
  }

  /** An escaped label ends at the first `*` that follows it. */
  lemma {:induction false} ReadEmphasizedEscape(name: string, tail: string)
    ensures ReadEmphasized(Escape(name) + "*" + tail) == Some((name, tail))
    decreases |name|
  {
    var r := Escape(name) + "*" + tail;
    if name == [] {
      assert r == "*" + tail;
    } else {
      var c := name[0];
      var r' := Escape(name[1..]) + "*" + tail;
      ReadEmphasizedEscape(name[1..], tail);
      assert r == EscapeChar(c) + r';
      assert [c] + name[1..] == name;
      if IsSpecial(c) {
        assert r[0] == Backslash && r[1] == c && r[2..] == r';
      } else {
        assert r[0] == c && r[1..] == r';
      }
    }
  }

  /** The `", "`-joined bold labels read back as the original labels. */
  lemma {:induction false} ParseNamesJoin(names: seq<string>)
    requires |names| >= 1
    ensures ParseNames(Join(ListSeparator, EmphasizedList(names))) == Some(names)
    decreases |names|
  {
    var name := names[0];
    var r := Join(ListSeparator, EmphasizedList(names));
    if |names| == 1 {
      assert r == "*" + (Escape(name) + "*" + "");
      ParseNamesStep(name, "");
      assert names == [name];
    } else {
      var tail := Join(ListSeparator, EmphasizedList(names[1..]));
      JoinEmphasizedCons(names);
      ParseNamesStep(name, ListSeparator + tail);
      assert (ListSeparator + tail)[2..] == tail;
      ParseNamesJoin(names[1..]);
      assert [name] + names[1..] == names;
    }
  }

  /** A list of two or more bold labels is the first, a separator, then the rest. */
  lemma JoinEmphasizedCons(names: seq<string>)
    requires |names| >= 2
    ensures Join(ListSeparator, EmphasizedList(names))
            == "*" + (Escape(names[0]) + "*" + (ListSeparator + Join(ListSeparator, EmphasizedList(names[1..]))))
  {
    var parts := EmphasizedList(names);
    assert parts[0] == Emphasize(names[0]);
    assert parts[1..] == EmphasizedList(names[1..]);
  }

  /** One step of ParseNames: a bold label, then the end or a separator. */
  lemma ParseNamesStep(name: string, rest: string)
    requires rest == [] || (|rest| >= 2 && rest[..2] == ListSeparator)
    ensures var r := "*" + (Escape(name) + "*" + rest);
            ParseNames(r) == if rest == [] then Some([name])
                             else match ParseNames(rest[2..])
                                  case None => None
                                  case Some(names) => Some([name] + names)
  {
    var r := "*" + (Escape(name) + "*" + rest);
    ReadEmphasizedEscape(name, rest);
    assert r[0] == '*';
    assert r[1..] == Escape(name) + "*" + rest;
  }

  /** The part of an alert after the count: the list between fixed words. */
  lemma AlertTail(list: string)
    ensures var rest := AlertMiddle + list + AlertSuffix;
            && |rest| >= |AlertMiddle| + |AlertSuffix|
            && rest[..|AlertMiddle|] == AlertMiddle
            && rest[|rest| - |AlertSuffix|..] == AlertSuffix
            && rest[|AlertMiddle|..|rest| - |AlertSuffix|] == list
  {
  }

  /** ParseAlert on any text of the alert's shape. */
  lemma ParseAlertShape(digits: string, list: string)
    requires |digits| >= 1 && AllDigits(digits)
    ensures ParseAlert(AlertPrefix + (digits + (AlertMiddle + list + AlertSuffix)))
            == match ParseNames(list)
               case None => None
               case Some(names) => Some((DecimalValue(digits), names))
  {
    var rest := AlertMiddle + list + AlertSuffix;
    var body := digits + rest;
    var text := AlertPrefix + body;
    assert text[..|AlertPrefix|] == AlertPrefix;
    assert text[|AlertPrefix|..] == body;
    assert rest[0] == ' ';
    DigitRunPrefix(digits, rest);
    assert body[..|digits|] == digits;
    assert body[|digits|..] == rest;
    AlertTail(list);
  }

  /**
   * The alert is unambiguous: for every non-empty list of failed labels, the
   * text reads back as exactly that count and those labels, in order, even
   * when the labels hold `*`, `_` or any other reserved character.
   */
  lemma AlertTextParses(failed: seq<string>)
    requires |failed| >= 1
    ensures ParseAlert(AlertText(failed)) == Some((|failed|, failed))
  {
    ParseAlertShape(DecimalString(|failed|), Join(ListSeparator, EmphasizedList(failed)));
    ParseNamesJoin(failed);
    DecimalRoundTrip(|failed|);
  }

  /**
   * The startup message is well formed MarkdownV2: unescaping it gives back
   * the plain sentence with the user name as it was.
   */
  lemma StartupTextUnescapes(username: string)
    ensures Unescape(StartupText(username))
            == Some("Bot " + username + " initialized successfully")
  {
    StartupWordsPlain();
    UnescapeFramed(StartupPrefix, username, StartupSuffix);
  }

  /** The fixed words of the startup message hold no reserved character. */
  lemma StartupWordsPlain()
    ensures CountSpecial(StartupPrefix) == 0 && CountSpecial(StartupSuffix) == 0
  {
    NoSpecialCount(StartupPrefix);
    NoSpecialCount(StartupSuffix);
  }

  /** Escaped text between two plain texts unescapes to the three texts joined. */
  lemma UnescapeFramed(a: string, s: string, b: string)
    requires CountSpecial(a) == 0 && CountSpecial(b) == 0
    ensures Unescape(a + Escape(s) + b) == Some(a + s + b)
  {
    EscapeNoSpecial(a);
    EscapeNoSpecial(b);
    EscapeAppend(a, s);
    EscapeAppend(a + s, b);
    UnescapeEscape(a + s + b);
  }

  lemma {:induction false} NoSpecialCount(s: string)
    requires forall i :: 0 <= i < |s| ==> !IsSpecial(s[i])
    ensures CountSpecial(s) == 0
    decreases |s|
  {
    if s != [] {
      NoSpecialCount(s[1..]);
    }
  }
}
