/** Escaping of text for Telegram's MarkdownV2 parse mode, as done by
    `escape_markdown_v2` before an expiry report is sent. */
module Markdown {

  /** The characters MarkdownV2 reserves: `_ * [ ] ( ) ~ ` > # + - = | { } . !`
      and the backslash itself. */
  predicate Reserved(c: char) {
    c in {'_', '*', '[', ']', '(', ')', '~', '`', '>', '#', '+', '-', '=', '|', '{', '}', '.', '!', '\\'}
  }

  /** Puts one backslash before every reserved character. */
  function Escape(s: string): string {
    if s == [] then []
    else (if Reserved(s[0]) then ['\\', s[0]] else [s[0]]) + Escape(s[1..])
  }

  /** Number of reserved characters in `s`. */
  function CountReserved(s: string): nat {
    if s == [] then 0 else (if Reserved(s[0]) then 1 else 0) + CountReserved(s[1..])
  }

  /** Drops the backslash in front of every escaped character. */
  function Unescape(t: string): string {
    if t == [] then []
    else if t[0] == '\\' && |t| >= 2 then [t[1]] + Unescape(t[2..])
    else [t[0]] + Unescape(t[1..])
  }

  /** Text in which every reserved character is preceded by a backslash, and
      every backslash starts such a pair. */
  predicate WellEscaped(t: string) {
    if t == [] then true
    else if t[0] == '\\' then |t| >= 2 && Reserved(t[1]) && WellEscaped(t[2..])
    else !Reserved(t[0]) && WellEscaped(t[1..])
  }

  /** The output is the input plus exactly one backslash per reserved character. */
  lemma {:induction false} EscapeLength(s: string)
    ensures |Escape(s)| == |s| + CountReserved(s)
  {
    if s != [] {
      EscapeLength(s[1..]);
    }
  }

  /** Escaping distributes over concatenation. */
  lemma {:induction false} EscapeAppend(a: string, b: string)
    ensures Escape(a + b) == Escape(a) + Escape(b)
  {
    if a == [] {
      assert a + b == b;
    } else {
      assert (a + b)[1..] == a[1..] + b;
      EscapeAppend(a[1..], b);
    }
  }

  /** Removing each inserted backslash recovers the input. */
  lemma {:induction false} UnescapeEscape(s: string)
    ensures Unescape(Escape(s)) == s
  {
    if s != [] {
      var head := if Reserved(s[0]) then ['\\', s[0]] else [s[0]];
      var t := head + Escape(s[1..]);
      if Reserved(s[0]) {
        assert t[0] == '\\' && t[1] == s[0] && t[2..] == Escape(s[1..]);
      } else {
        assert t[0] == s[0] && t[1..] == Escape(s[1..]);
      }
      UnescapeEscape(s[1..]);
    }
  }

  /** Every escaped text is well formed MarkdownV2: no reserved character is
      left bare. */
  lemma {:induction false} EscapeWellEscaped(s: string)
    ensures WellEscaped(Escape(s))
  {
    if s != [] {
      var t := Escape(s);
      EscapeWellEscaped(s[1..]);
      if Reserved(s[0]) {
        assert t[0] == '\\' && t[1] == s[0] && t[2..] == Escape(s[1..]);
      } else {
        assert t[0] == s[0] && t[1..] == Escape(s[1..]);
      }
    }
  }

  /** Conversely every well formed text is the escape of its unescaped form,
      so `Escape` is a bijection onto well formed texts. */
  lemma {:induction false} EscapeUnescape(t: string)
    requires WellEscaped(t)
    ensures Escape(Unescape(t)) == t
  {
    if t != [] {
      if t[0] == '\\' {
        EscapeUnescape(t[2..]);
        assert Unescape(t) == [t[1]] + Unescape(t[2..]);
        assert t == ['\\', t[1]] + t[2..];
      } else {
        EscapeUnescape(t[1..]);
        assert Unescape(t) == [t[0]] + Unescape(t[1..]);
        assert t == [t[0]] + t[1..];
      }
    }
  }

  /** Characters outside the reserved set pass through unchanged. */
  lemma {:induction false} EscapePlain(s: string)
    requires forall i :: 0 <= i < |s| ==> !Reserved(s[i])
    ensures Escape(s) == s
  {
    if s != [] {
      EscapePlain(s[1..]);
    }
  }
}
