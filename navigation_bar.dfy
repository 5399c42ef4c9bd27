/** The input of features/entries/components/NavigationBar.tsx: a text field
    whose Enter key (without Shift) creates a note. */
module NavigationBar {
  import opened Wrappers

  /** The characters `String.prototype.trim` strips: ECMAScript WhiteSpace and
      LineTerminator. */
  predicate IsWhitespace(c: char) {
    || c == '\t' || c == '\n' || c == '\U{000B}' || c == '\U{000C}' || c == '\r' || c == ' '
    || c == '\U{00A0}' || c == '\U{1680}' || ('\U{2000}' <= c <= '\U{200A}')
    || c == '\U{2028}' || c == '\U{2029}' || c == '\U{202F}' || c == '\U{205F}'
    || c == '\U{3000}' || c == '\U{FEFF}'
  }

  predicate IsBlank(s: string) {
    forall i | 0 <= i < |s| :: IsWhitespace(s[i])
  }

  /** A prefix of `s` that starts with whitespace is blank iff the rest of it
      is, and so is the whole of `s`. */
  lemma BlankAfterFirst(s: string, n: nat)
    requires 1 <= n <= |s| && IsWhitespace(s[0])
    ensures IsBlank(s[..n]) <==> IsBlank(s[1..][..n - 1])
    ensures IsBlank(s) <==> IsBlank(s[1..])
  {
    assert forall i | 1 <= i < |s| :: s[i] == s[1..][i - 1];
    assert forall i | 1 <= i < n :: s[..n][i] == s[1..][..n - 1][i - 1];
  }

  /** Strips leading whitespace: the result is a suffix of `s`, and what it
      drops is whitespace only. */
  function TrimStart(s: string): (r: string)
    ensures |r| <= |s| && r == s[|s| - |r|..] && IsBlank(s[..|s| - |r|])
    ensures r == [] || !IsWhitespace(r[0])
    ensures r == [] <==> IsBlank(s)
  {
    if s == [] || !IsWhitespace(s[0]) then s
    else
      var r := TrimStart(s[1..]);
      BlankAfterFirst(s, |s| - |r|);
      assert s[1..][|s| - 1 - |r|..] == s[|s| - |r|..];
      r
  }

  /** Strips trailing whitespace: the result is a prefix of `s`, and what it
      drops is whitespace only. */
  function TrimEnd(s: string): (r: string)
    ensures |r| <= |s| && r == s[..|r|] && IsBlank(s[|r|..])
    ensures r == [] || !IsWhitespace(r[|r| - 1])
    ensures r == [] <==> IsBlank(s)
  {
    if s == [] || !IsWhitespace(s[|s| - 1]) then s
    else
      var r := TrimEnd(s[..|s| - 1]);
      assert IsBlank(s) <==> IsBlank(s[..|s| - 1]) by {
        assert forall i | 0 <= i < |s| - 1 :: s[i] == s[..|s| - 1][i];
      }
      assert s[..|s| - 1][..|r|] == s[..|r|];
      assert s[|r|..] == s[..|s| - 1][|r|..] + [s[|s| - 1]];
      r
  }

  /** `s.trim()`. */
  function Trim(s: string): string {
    TrimEnd(TrimStart(s))
  }

  /** `!text.trim()` holds exactly for empty and whitespace-only text, and a
      non-empty trimmed text starts and ends with a non-whitespace character. */
  lemma TrimEmptyIffBlank(s: string)
    ensures Trim(s) == [] <==> IsBlank(s)
    ensures Trim(s) != [] ==> !IsWhitespace(Trim(s)[0]) && !IsWhitespace(Trim(s)[|Trim(s)| - 1])
  {
    var t := TrimStart(s);
    assert t != [] ==> !IsBlank(t) by {
      if t != [] {
        assert !IsWhitespace(t[0]);
      }
    }
    if t != [] {
      assert TrimEnd(t) != [];
      TrimEndKeepsFirst(t);
    }
  }

  lemma {:induction false} TrimEndKeepsFirst(s: string)
    requires TrimEnd(s) != []
    ensures TrimEnd(s)[0] == s[0]
  {
    if s != [] && IsWhitespace(s[|s| - 1]) {
      TrimEndKeepsFirst(s[..|s| - 1]);
    }
  }

  datatype KeyEvent = KeyEvent(key: string, shiftKey: bool)

  class NavBar {
    var text: string

    constructor ()
      ensures text == ""
    {
      text := "";
    }

    /** `onChange`: the text becomes the input's value exactly. */
    method HandleChange(value: string)
      modifies this
      ensures text == value
    {
      text := value;
    }

    /** `handleKeyDown`. Enter without Shift never inserts a newline; on text
        that is not blank it creates a note from the untrimmed text and clears
        the input. Every other key, and Enter on blank text, leaves the text. */
    method HandleKeyDown(ev: KeyEvent) returns (created: Option<string>, defaultPrevented: bool)
      modifies this
      ensures defaultPrevented <==> ev.key == "Enter" && !ev.shiftKey
      ensures created.Some? <==> defaultPrevented && !IsBlank(old(text))
      ensures created.Some? ==> created.value == old(text) && text == ""
      ensures created.None? ==> text == old(text)
    {
      created := None;
      defaultPrevented := false;
      if ev.key == "Enter" && !ev.shiftKey {
        defaultPrevented := true;
        TrimEmptyIffBlank(text);
        if Trim(text) == [] {
          return;
        }
        created := Some(text);
        text := "";
      }
    }
  }
}
