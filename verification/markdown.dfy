/**
 * Escaping of free text for Telegram's MarkdownV2 parse mode, as done by
 * `escape_markdown` in bot.py: every reserved character gets a backslash in
 * front of it, every other character is copied unchanged.
 */
module Markdown {
  import opened Seqs
  import opened Wrappers

  /**
   * The 21 reserved characters bot.py lists in SPECIAL_CHARS (only membership
   * in that list is ever used, so a set says the same).
   */
  const SpecialChars: set<char> :=
    {'\\', '_', '*', '[', ']', '(', ')', '~', '`', '>', '<',
     '&', '#', '+', '-', '=', '|', '{', '}', '.', '!'}

  const Backslash: char := '\\'

  predicate IsSpecial(c: char) {
    c in SpecialChars
  }

  /** Number of reserved characters in `s`. */
  function CountSpecial(s: string): nat {
    if s == [] then 0
    else (if IsSpecial(s[0]) then 1 else 0) + CountSpecial(s[1..])
  }

  /** The escaped form of one character. */
  function EscapeChar(c: char): (r: string)
    ensures |r| == (if IsSpecial(c) then 2 else 1)
    ensures r[|r| - 1] == c
    ensures |r| == 2 ==> r[0] == Backslash
  {
    if IsSpecial(c) then [Backslash, c] else [c]
  }

  /** `escape_markdown(text)`: the characters of `s`, each escaped, in order. */
  function Escape(s: string): (r: string)
    ensures |r| == |s| + CountSpecial(s)
  {
    if s == [] then [] else EscapeChar(s[0]) + Escape(s[1..])
  }

  /**
   * The inverse of Escape: drops the backslash in front of each escaped
   * reserved character. Text that Escape can not have produced (a lone
   * reserved character, a backslash before an ordinary character or at the
   * end) gives None.
   */
  function Unescape(r: string): Option<string>
    decreases |r|
  {
    if r == [] then Some([])
    else if r[0] == Backslash then
      if |r| >= 2 && IsSpecial(r[1]) then Prepend(r[1], Unescape(r[2..])) else None
    else if IsSpecial(r[0]) then None
    else Prepend(r[0], Unescape(r[1..]))
  }

  function Prepend(c: char, o: Option<string>): Option<string> {
    match o
    case None => None
    case Some(s) => Some([c] + s)
  }

  /** Text is well formed when every reserved character in it is escaped. */
  predicate WellEscaped(r: string) {
    Unescape(r).Some?
  }

  lemma EscapeCons(c: char, s: string)
    ensures Escape([c] + s) == EscapeChar(c) + Escape(s)
  {
    assert ([c] + s)[0] == c;
    assert ([c] + s)[1..] == s;
  }

  /** Escaping works character by character: it distributes over concatenation. */
  lemma {:induction false} EscapeAppend(a: string, b: string)
    ensures Escape(a + b) == Escape(a) + Escape(b)
    decreases |a|
  {
    if a == [] {
      assert a + b == b;
    } else {
      assert a + b == [a[0]] + (a[1..] + b);
      EscapeCons(a[0], a[1..] + b);
      EscapeAppend(a[1..], b);
      assert a == [a[0]] + a[1..];
      EscapeCons(a[0], a[1..]);
      AppendAssoc(EscapeChar(a[0]), Escape(a[1..]), Escape(b));
    }
  }

  /** Round trip: unescaping the escaped text recovers the input exactly. */
  lemma {:induction false} UnescapeEscape(s: string)
    ensures Unescape(Escape(s)) == Some(s)
    decreases |s|
  {
    if s != [] {
      var c, rest := s[0], Escape(s[1..]);
      UnescapeEscape(s[1..]);
      var r := Escape(s);
      assert r == EscapeChar(c) + rest;
      if IsSpecial(c) {
        assert r[0] == Backslash && r[1] == c && r[2..] == rest;
      } else {
        assert r[0] == c && r[1..] == rest;
        assert c != Backslash;
      }
      assert [c] + s[1..] == s;
    }
  }

  /**
   * The converse: a well-formed text is the escaped form of what it
   * unescapes to, so Escape and Unescape are mutually inverse.
   */
  lemma {:induction false} EscapeUnescape(r: string, s: string)
    requires Unescape(r) == Some(s)
    ensures Escape(s) == r
    decreases |r|
  {
    if r == [] {
    } else if r[0] == Backslash {
      var t :| Unescape(r[2..]) == Some(t);
      assert s == [r[1]] + t;
      EscapeUnescape(r[2..], t);
      EscapeCons(r[1], t);
      assert r == [r[0], r[1]] + r[2..];
    } else {
      var t :| Unescape(r[1..]) == Some(t);
      assert s == [r[0]] + t;
      EscapeUnescape(r[1..], t);
      EscapeCons(r[0], t);
      assert r == [r[0]] + r[1..];
    }
  }

  /** Escaped text is always well formed. */
  lemma EscapeWellEscaped(s: string)
    ensures WellEscaped(Escape(s))
  {
    UnescapeEscape(s);
  }

  /** Escape is injective. */
  lemma EscapeInjective(a: string, b: string)
    requires Escape(a) == Escape(b)
    ensures a == b
  {
    UnescapeEscape(a);
    UnescapeEscape(b);
  }

  /** Counting reserved characters distributes over concatenation. */
  lemma {:induction false} CountSpecialAppend(a: string, b: string)
    ensures CountSpecial(a + b) == CountSpecial(a) + CountSpecial(b)
    decreases |a|
  {
    if a == [] {
      assert a + b == b;
    } else {
      assert (a + b)[0] == a[0];
      assert (a + b)[1..] == a[1..] + b;
      CountSpecialAppend(a[1..], b);
    }
  }

  /** Each reserved character turns into two reserved characters. */
  lemma {:induction false} CountSpecialEscape(s: string)
    ensures CountSpecial(Escape(s)) == 2 * CountSpecial(s)
    decreases |s|
  {
    if s != [] {
      CountSpecialEscape(s[1..]);
      var e := EscapeChar(s[0]);
      CountSpecialAppend(e, Escape(s[1..]));
      if IsSpecial(s[0]) {
        assert e[1..][1..] == [];
        assert CountSpecial(e) == 1 + CountSpecial(e[1..]);
      } else {
        assert e[1..] == [];
      }
    }
  }

  /** Text without reserved characters is left exactly as it is. */
  lemma {:induction false} EscapeNoSpecial(s: string)
    requires CountSpecial(s) == 0
    ensures Escape(s) == s
    decreases |s|
  {
    if s != [] {
      EscapeNoSpecial(s[1..]);
      assert [s[0]] + s[1..] == s;
    }
  }

  /**
   * Escape is not idempotent: escaping twice equals escaping once exactly
   * when the text holds no reserved character (the backslash is reserved, so
   * every escape introduced by the first pass is escaped again).
   */
  lemma EscapeTwiceIff(s: string)
    ensures Escape(Escape(s)) == Escape(s) <==> CountSpecial(s) == 0
  {
    if CountSpecial(s) == 0 {
      EscapeNoSpecial(s);
    } else {
      CountSpecialEscape(s);
      assert |Escape(Escape(s))| == |Escape(s)| + 2 * CountSpecial(s);
    }
  }
}
