/** Characters and zero-terminated strings, as the client tools see them: one
    byte per character, classified by the latin1 tables. */
module Text {

  const NUL := '\0'

  datatype Option<+T> = None | Some(value: T)

  /** my_isspace for latin1 (strings/ctype-latin1.c). */
  predicate IsSpace(c: char) {
    c == ' ' || '\t' <= c <= '\r' || c == '\U{A0}'
  }

  predicate Spaces(s: string) {
    forall i :: 0 <= i < |s| ==> IsSpace(s[i])
  }

  predicate IsQuote(c: char) {
    c == '\'' || c == '"' || c == '`'
  }

  /** The character a C program reads at offset `i` of a terminated string. */
  function At(s: string, i: nat): char {
    if i < |s| then s[i] else NUL
  }

  /** `t` starts at offset `i` of `s`. */
  predicate PrefixAt(s: string, i: nat, t: string) {
    i + |t| <= |s| && s[i..i + |t|] == t
  }

  /** The part of `s` that strlen, strstr and friends see. */
  function CString(s: string): (r: string)
    ensures |r| <= |s|
  {
    if s == "" || s[0] == NUL then "" else [s[0]] + CString(s[1..])
  }

  lemma {:induction false} CStringEnds(s: string, n: nat)
    requires n <= |s| && At(s, n) == NUL && forall i :: 0 <= i < n ==> s[i] != NUL
    ensures CString(s) == s[..n]
  {
    if n > 0 {
      CStringEnds(s[1..], n - 1);
      assert s[..n] == [s[0]] + s[1..][..n - 1];
    }
  }

  lemma {:induction false} CStringFree(s: string)
    ensures NUL !in CString(s)
  {
    if s != "" && s[0] != NUL { CStringFree(s[1..]); }
  }

  lemma PrefixOfSuffix(s: string, p: nat, q: nat, t: string)
    requires p <= q <= |s|
    ensures PrefixAt(s[p..], q - p, t) == PrefixAt(s[q..], 0, t)
  {
    assert s[p..][q - p..] == s[q..];
  }

  function DropSpaces(s: string): (r: string)
    ensures |r| <= |s|
    ensures r == "" || !IsSpace(r[0])
  {
    if s != "" && IsSpace(s[0]) then DropSpaces(s[1..]) else s
  }

  /** How a text is written between quotes: a doubled quote, and a doubled backslash where the
      backslash escapes. */
  function Escaped(body: string, quote: char): string {
    if body == "" then "" else EscapedChar(body[0], quote) + Escaped(body[1..], quote)
  }

  function EscapedChar(x: char, quote: char): (t: string)
    ensures t != ""
  {
    if x == quote || (x == '\\' && quote != '`') then [x, x] else [x]
  }

  lemma {:induction false} EscapedNulFree(body: string, quote: char)
    requires NUL !in body
    ensures NUL !in Escaped(body, quote)
  {
    if body != "" { EscapedNulFree(body[1..], quote); }
  }

  /** `mem` holds the string `s` at offset `p`, followed by its terminator. */
  ghost predicate Holds(mem: array<char>, p: nat, s: string)
    reads mem
  {
    && p + |s| < mem.Length
    && (forall i :: 0 <= i < |s| ==> mem[p + i] == s[i] && s[i] != NUL)
    && mem[p + |s|] == NUL
  }
}
