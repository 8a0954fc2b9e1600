/**
 * The two string encodings the dashboard builds keys with: the escaping that
 * puts a topic or field name inside a CSS attribute selector, and the
 * `topic NUL field` key of the set of fields the operator is editing.
 */
module Selectors {
  import opened Wrappers

  // ---------------------------------------------------------------------------
  // escapeAttrValue
  // ---------------------------------------------------------------------------

  /** `s.replace(/c/g, rep)`. */
  function ReplaceChar(s: string, c: char, rep: string): (r: string)
    ensures c !in rep ==> c !in r
  {
    if |s| == 0 then ""
    else (if s[0] == c then rep else [s[0]]) + ReplaceChar(s[1..], c, rep)
  }

  /** Backslashes are doubled first, then every double quote gets a backslash. */
  function EscapeAttrValue(s: string): string {
    ReplaceChar(ReplaceChar(s, '\\', "\\\\"), '"', "\\\"")
  }

  /** The escape of one character, as a single pass would produce it. */
  function EscapeChar(c: char): string {
    if c == '\\' then "\\\\" else if c == '"' then "\\\"" else [c]
  }

  function EscapeEach(s: string): string {
    if |s| == 0 then "" else EscapeChar(s[0]) + EscapeEach(s[1..])
  }

  lemma {:induction false} ReplaceCharAppend(a: string, b: string, c: char, rep: string)
    ensures ReplaceChar(a + b, c, rep) == ReplaceChar(a, c, rep) + ReplaceChar(b, c, rep)
  {
    if |a| > 0 {
      assert (a + b)[1..] == a[1..] + b;
      ReplaceCharAppend(a[1..], b, c, rep);
    } else {
      assert a + b == b;
    }
  }

  /** The two global replacements together escape each character on its own. */
  lemma {:induction false} EscapeAttrValueIsPerChar(s: string)
    ensures EscapeAttrValue(s) == EscapeEach(s)
  {
    if |s| > 0 {
      EscapeAttrValueIsPerChar(s[1..]);
      var first := if s[0] == '\\' then "\\\\" else [s[0]];
      assert ReplaceChar(s, '\\', "\\\\") == first + ReplaceChar(s[1..], '\\', "\\\\");
      ReplaceCharAppend(first, ReplaceChar(s[1..], '\\', "\\\\"), '"', "\\\"");
      if s[0] == '\\' {
        assert ReplaceChar(first, '"', "\\\"") == "\\\\" by {
          assert first[1..] == "\\";
          assert first[1..][1..] == "";
        }
      } else {
        assert first[1..] == "";
      }
    }
  }

  // ---------------------------------------------------------------------------
  // Reading the escaped text back as a CSS string token
  // ---------------------------------------------------------------------------

  /** Characters that end a CSS string token as a bad string (after input preprocessing). */
  predicate IsCssNewline(c: char) {
    c == '\n' || c == '\r' || c == '\U{000C}'
  }

  predicate IsHexDigit(c: char) {
    '0' <= c <= '9' || 'a' <= c <= 'f' || 'A' <= c <= 'F'
  }

  /**
   * The value a CSS parser reads from the text between the quotes of
   * `[attr="<t>"]` (CSS Syntax Module Level 3, section 4.3.5, with the
   * preprocessing of section 3.3): a backslash takes the next character
   * literally, NUL reads as U+FFFD.  None when the text does not form one
   * string token: an unescaped quote or newline, a backslash escaping the
   * closing quote, and (not modelled here) hexadecimal and line-continuation
   * escapes.
   */
  function CssStringValue(t: string): Option<string>
    decreases |t|
  {
    if |t| == 0 then Some("")
    else if t[0] == '"' || IsCssNewline(t[0]) then None
    else if t[0] == '\\' then
      if |t| == 1 || IsHexDigit(t[1]) || IsCssNewline(t[1]) then None
      else
        match CssStringValue(t[2..])
        case Some(rest) => Some([t[1]] + rest)
        case None => None
    else
      match CssStringValue(t[1..])
      case Some(rest) => Some([if t[0] == '\0' then '\U{FFFD}' else t[0]] + rest)
      case None => None
  }

  predicate SelectorSafe(s: string) {
    forall i :: 0 <= i < |s| ==> s[i] != '\0' && !IsCssNewline(s[i])
  }

  /** A selector built from a name without NUL or line breaks matches exactly that name. */
  lemma {:induction false} EscapeRoundTrip(s: string)
    requires SelectorSafe(s)
    ensures CssStringValue(EscapeAttrValue(s)) == Some(s)
  {
    EscapeAttrValueIsPerChar(s);
    EscapeEachRoundTrip(s);
  }

  lemma {:induction false} EscapeEachRoundTrip(s: string)
    requires SelectorSafe(s)
    ensures CssStringValue(EscapeEach(s)) == Some(s)
  {
    if |s| > 0 {
      EscapeEachRoundTrip(s[1..]);
      var e := EscapeEach(s);
      assert e == EscapeChar(s[0]) + EscapeEach(s[1..]);
      if s[0] == '\\' || s[0] == '"' {
        assert e[2..] == EscapeEach(s[1..]);
      } else {
        assert e[1..] == EscapeEach(s[1..]);
      }
      assert s == [s[0]] + s[1..];
    }
  }

  /**
   * A name with a line break does not survive the selector: its escaped form
   * is no valid CSS string, so the selector built from it is invalid.
   */
  lemma {:induction false} EscapeBreaksOnNewline(s: string)
    requires exists i :: 0 <= i < |s| && IsCssNewline(s[i])
    ensures CssStringValue(EscapeAttrValue(s)) == None
  {
    EscapeAttrValueIsPerChar(s);
    EscapeEachNewline(s);
  }

  lemma {:induction false} EscapeEachNewline(s: string)
    requires exists i :: 0 <= i < |s| && IsCssNewline(s[i])
    ensures CssStringValue(EscapeEach(s)) == None
  {
    var e := EscapeEach(s);
    assert e == EscapeChar(s[0]) + EscapeEach(s[1..]);
    if IsCssNewline(s[0]) {
      assert e[0] == s[0];
    } else {
      var i :| 0 <= i < |s| && IsCssNewline(s[i]);
      assert s[1..][i - 1] == s[i];
      EscapeEachNewline(s[1..]);
      if s[0] == '\\' || s[0] == '"' {
        assert e[2..] == EscapeEach(s[1..]);
      } else {
        assert e[1..] == EscapeEach(s[1..]);
      }
    }
  }

  // ---------------------------------------------------------------------------
  // Dirty-field keys
  // ---------------------------------------------------------------------------

  predicate NulFree(s: string) {
    forall i :: 0 <= i < |s| ==> s[i] != '\0'
  }

  predicate StartsWith(s: string, p: string) {
    |p| <= |s| && s[..|p|] == p
  }

  /** The key of a field the operator has touched: topic, NUL, field name. */
  function DirtyKey(topic: string, field: string): (k: string)
    ensures StartsWith(k, topic + "\0")
  {
    assert (topic + "\0" + field)[..|topic| + 1] == topic + "\0";
    topic + "\0" + field
  }

  /** For NUL-free topics the key determines both the topic and the field. */
  lemma DirtyKeyInjective(t1: string, f1: string, t2: string, f2: string)
    requires NulFree(t1) && NulFree(t2)
    requires DirtyKey(t1, f1) == DirtyKey(t2, f2)
    ensures t1 == t2 && f1 == f2
  {
    DirtyKeyPrefix(t1, f1, t2);
    var k := DirtyKey(t1, f1);
    assert f1 == k[|t1| + 1..];
    assert f2 == DirtyKey(t2, f2)[|t2| + 1..];
  }

  /** `k.startsWith(topic + NUL)` picks out exactly the keys of that topic's fields. */
  lemma DirtyKeyPrefix(t: string, f: string, other: string)
    requires NulFree(t) && NulFree(other)
    ensures StartsWith(DirtyKey(t, f), other + "\0") <==> t == other
  {
    var k := DirtyKey(t, f);
    if StartsWith(k, other + "\0") {
      assert forall i :: 0 <= i < |t| ==> k[i] == t[i];
      assert forall i :: 0 <= i <= |other| ==> k[i] == (other + "\0")[i];
      assert k[|other|] == '\0' && k[|t|] == '\0';
      assert |other| == |t|;
      assert other == k[..|t|];
    }
  }
}
