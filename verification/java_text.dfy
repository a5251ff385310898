/** The parts of java.lang.Character and java.lang.String that the converter relies on:
    whitespace classification, blankness and lower-casing. */
module JavaText {

  /** Character.isSpaceChar: the character's Unicode general category is
      SPACE_SEPARATOR (Zs), LINE_SEPARATOR (Zl) or PARAGRAPH_SEPARATOR (Zp). */
  predicate IsSpaceChar(c: char)
    ensures IsSpaceChar(c) && IsAscii(c) ==> c == ' '
  {
    c == ' ' || c == '\U{00A0}' || c == '\U{1680}' || ('\U{2000}' <= c <= '\U{200A}')
    || c == '\U{2028}' || c == '\U{2029}' || c == '\U{202F}' || c == '\U{205F}' || c == '\U{3000}'
  }

  /** Character.isWhitespace: a space character other than the three non-breaking
      spaces, or one of the controls HT, LF, VT, FF, CR and FS, GS, RS, US. */
  predicate IsWhitespace(c: char)
    ensures IsWhitespace(c) ==> c != '\U{00A0}' && c != '\U{2007}' && c != '\U{202F}'
    ensures IsAscii(c) ==> (IsWhitespace(c) <==> c == ' ' || '\t' <= c <= '\r' || '\U{001C}' <= c <= '\U{001F}')
    ensures IsWhitespace(c) ==> !('A' <= c <= 'Z') && !('a' <= c <= 'z')
  {
    (IsSpaceChar(c) && c != '\U{00A0}' && c != '\U{2007}' && c != '\U{202F}')
    || ('\t' <= c <= '\r')
    || ('\U{001C}' <= c <= '\U{001F}')
  }

  /** String.isBlank: empty, or whitespace only. */
  predicate IsBlank(s: string)
    ensures |s| == 0 ==> IsBlank(s)
    ensures s != [] && !IsWhitespace(s[0]) ==> !IsBlank(s)
    ensures IsBlank(s) ==> forall i :: 0 <= i < |s| ==> s[i] != '\U{00A0}'
  {
    forall i :: 0 <= i < |s| ==> IsWhitespace(s[i])
  }

  predicate IsAscii(c: char) {
    c <= '\U{007F}'
  }

  /** Lower-cases the ASCII letters A-Z and leaves every other character alone. */
  function LowerChar(c: char): char {
    if 'A' <= c <= 'Z' then (c as int + 32) as char else c
  }

  /** String.toLowerCase(Locale.ENGLISH), restricted to the ASCII case fold. */
  function ToLowerCase(s: string): (r: string)
    ensures |r| == |s|
    ensures forall i :: 0 <= i < |r| ==> !('A' <= r[i] <= 'Z')
    ensures forall i :: 0 <= i < |s| && !('A' <= s[i] <= 'Z') ==> r[i] == s[i]
    ensures forall i :: 0 <= i < |s| && 'A' <= s[i] <= 'Z' ==> r[i] as int == s[i] as int + 32
  {
    seq(|s|, i requires 0 <= i < |s| => LowerChar(s[i]))
  }

  /** Lower-casing changes only letters, so it never changes whether a string is
      blank, and it keeps every non-ASCII character in place. */
  lemma LowerCaseKeepsBlankness(s: string)
    ensures IsBlank(ToLowerCase(s)) <==> IsBlank(s)
  {
    var l := ToLowerCase(s);
    forall i | 0 <= i < |s|
      ensures IsWhitespace(l[i]) <==> IsWhitespace(s[i])
    {
      assert l[i] == LowerChar(s[i]);
    }
  }

  lemma LowerCaseKeepsNonAscii(s: string, i: nat)
    requires i < |s| && !IsAscii(s[i])
    ensures |ToLowerCase(s)| == |s| && ToLowerCase(s)[i] == s[i]
  {
  }

}
