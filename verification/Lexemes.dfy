/** SQL text written as a list of lexical elements, each spelled out in its characters. */
module Lexemes {

  /** A closed element: a literal, a quoted name, two kinds of comment, a dollar-quoted body, or one other character. */
  datatype Lexeme =
    | Quoted(text: string)
    | Named(name: string)
    | LineNote(text: string)
    | BlockNote(text: string)
    | Body(tag: string, text: string)
    | Single(c: char)

  /** What a text ends with: nothing more, or an element that never closes. */
  datatype Ending =
    | Done
    | OpenQuoted(text: string)
    | OpenNamed(name: string)
    | OpenLine(text: string)
    | OpenBlock(text: string)
    | OpenBody(tag: string, text: string)

  function Doubled(s: string): string {
    if s == "" then "" else (if s[0] == '\'' then "''" else [s[0]]) + Doubled(s[1..])
  }

  function Delimiter(tag: string): string {
    "$" + tag + "$"
  }

  function Spell(l: Lexeme): string {
    match l
    case Quoted(x) => "'" + Doubled(x) + "'"
    case Named(x) => "\"" + x + "\""
    case LineNote(x) => "--" + x
    case BlockNote(x) => "/*" + x + "*/"
    case Body(tag, x) => Delimiter(tag) + x + Delimiter(tag)
    case Single(c) => [c]
  }

  function SpellEnding(e: Ending): string {
    match e
    case Done => ""
    case OpenQuoted(x) => "'" + Doubled(x)
    case OpenNamed(x) => "\"" + x
    case OpenLine(x) => "--" + x
    case OpenBlock(x) => "/*" + x
    case OpenBody(tag, x) => Delimiter(tag) + x
  }

  predicate WordChar(c: char) {
    'A' <= c <= 'Z' || 'a' <= c <= 'z' || '0' <= c <= '9' || c == '_'
  }

  predicate WordOnly(s: string) {
    forall k :: 0 <= k < |s| ==> WordChar(s[k])
  }

  predicate Occurs(s: string, pat: string, k: nat) {
    k + |pat| <= |s| && s[k..k + |pat|] == pat
  }

  /** `pat` stands in `s` at `k` and nowhere before. */
  predicate FirstAt(s: string, pat: string, k: nat) {
    Occurs(s, pat, k) && forall j :: 0 <= j < k ==> !Occurs(s, pat, j)
  }

  predicate Absent(s: string, pat: string) {
    forall j :: 0 <= j <= |s| ==> !Occurs(s, pat, j)
  }

  /** A dollar sign, word characters, a dollar sign. */
  predicate StartsBody(s: string) {
    s != "" && s[0] == '$' && exists k :: 0 < k < |s| && s[k] == '$' && WordOnly(s[1..k])
  }

  /** The character opens none of the other elements when `rest` follows it. */
  predicate Bare(c: char, rest: string) {
    && c != '\'' && c != '"'
    && !(c == '-' && rest != "" && rest[0] == '-')
    && !(c == '/' && rest != "" && rest[0] == '*')
    && !StartsBody([c] + rest)
  }

  /** The element ends where its spelling ends when `rest` follows it. */
  predicate Proper(l: Lexeme, rest: string) {
    match l
    case Quoted(_) => rest == "" || rest[0] != '\''
    case Named(x) => '"' !in x
    case LineNote(x) => '\n' !in x && rest != "" && rest[0] == '\n'
    case BlockNote(x) => FirstAt(x + "*/", "*/", |x|)
    case Body(tag, x) => WordOnly(tag) && FirstAt(x + Delimiter(tag), Delimiter(tag), |x|)
    case Single(c) => Bare(c, rest)
  }

  predicate ProperEnding(e: Ending) {
    match e
    case Done => true
    case OpenQuoted(_) => true
    case OpenNamed(x) => '"' !in x
    case OpenLine(x) => '\n' !in x
    case OpenBlock(x) => Absent(x, "*/")
    case OpenBody(tag, x) => WordOnly(tag) && Absent(x, Delimiter(tag))
  }

  function SpellAll(ls: seq<Lexeme>, e: Ending): string {
    if ls == [] then SpellEnding(e) else Spell(ls[0]) + SpellAll(ls[1..], e)
  }

  predicate ProperAll(ls: seq<Lexeme>, e: Ending) {
    if ls == [] then ProperEnding(e) else Proper(ls[0], SpellAll(ls[1..], e)) && ProperAll(ls[1..], e)
  }

  /** The text is spelled by these elements and this ending. */
  predicate Spells(ls: seq<Lexeme>, e: Ending, s: string) {
    ProperAll(ls, e) && SpellAll(ls, e) == s
  }

  /** Where the semicolons stand that are elements of their own, when the first element stands at `offset`. */
  function SemicolonsAt(ls: seq<Lexeme>, offset: nat): seq<nat> {
    if ls == [] then []
    else (if ls[0] == Single(';') then [offset] else []) + SemicolonsAt(ls[1..], offset + |Spell(ls[0])|)
  }
}
