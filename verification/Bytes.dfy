/** Octets and the character classes of the strict build of the HTTP parser. */
module Bytes {

  datatype Option<T> = None | Some(value: T)

  /** One octet of a C buffer, read as `unsigned char`. */
  type byte = x: int | 0 <= x < 256

  const NUL: byte := 0
  const HT: byte := 9
  const LF: byte := 10
  const FF: byte := 12
  const CR: byte := 13
  const SP: byte := 32
  const CRLF: seq<byte> := [CR, LF]

  /** 2^64 - 1: the largest `uint64_t`, and the "no Content-Length" sentinel. */
  const ULLONG_MAX: nat := 0xFFFF_FFFF_FFFF_FFFF

  predicate IsAsciiString(s: string) {
    forall i :: 0 <= i < |s| ==> s[i] as int < 128
  }

  /** The octets of a C string literal. */
  function Ascii(s: string): (r: seq<byte>)
    requires IsAsciiString(s)
    ensures |r| == |s| && forall i :: 0 <= i < |s| ==> r[i] == s[i] as int
  {
    seq(|s|, i requires 0 <= i < |s| => s[i] as int)
  }

  /** `literal[i]` for a NUL-terminated C literal. */
  function LiteralAt(s: string, i: nat): int {
    if i < |s| then s[i] as int else 0
  }

  /** `(unsigned char)(c | 0x20)` */
  function Lower(c: byte): byte {
    if c / 32 % 2 == 0 then c + 32 else c
  }

  predicate IsAlpha(c: byte) {
    'a' as int <= Lower(c) <= 'z' as int
  }

  predicate IsNum(c: byte) {
    '0' as int <= c <= '9' as int
  }

  /** What a digit is worth. */
  function DigitOf(c: byte): nat
    requires IsNum(c)
  {
    c - '0' as int
  }

  predicate IsAlphaNum(c: byte) {
    IsAlpha(c) || IsNum(c)
  }

  predicate IsHex(c: byte) {
    IsNum(c) || 'a' as int <= Lower(c) <= 'f' as int
  }

  predicate IsMark(c: byte) {
    c == '-' as int || c == '_' as int || c == '.' as int || c == '!' as int || c == '~' as int
    || c == '*' as int || c == '\'' as int || c == '(' as int || c == ')' as int
  }

  predicate IsUserinfoChar(c: byte) {
    IsAlphaNum(c) || IsMark(c) || c == '%' as int || c == ';' as int || c == ':' as int
    || c == '&' as int || c == '=' as int || c == '+' as int || c == '$' as int || c == ',' as int
  }

  predicate IsHostChar(c: byte) {
    IsAlphaNum(c) || c == '.' as int || c == '-' as int
  }

  /** The `tokens` table in the strict build: the lower-cased token character, or 0. */
  function Token(c: byte): byte {
    if 'A' as int <= c <= 'Z' as int then c + 32
    else if 'a' as int <= c <= 'z' as int || IsNum(c) then c
    else if c == '!' as int || '#' as int <= c <= '\'' as int || c == '*' as int || c == '+' as int
         || c == '-' as int || c == '.' as int || c == '^' as int || c == '_' as int || c == '`' as int
         || c == '|' as int || c == '~' as int then c
    else 0
  }

  /** The characters that a token may hold beside letters and digits: tchar of RFC 7230, section 3.2.6. */
  const TOKEN_MARKS: string := "!#$%&'*+-.^_`|~"

  /** The table holds exactly the characters of tokens, and lowers exactly the letters. */
  lemma TokenExact(c: byte)
    ensures Token(c) != 0 <==> IsAlphaNum(c) || exists i :: 0 <= i < |TOKEN_MARKS| && c == TOKEN_MARKS[i] as int
    ensures Token(c) != 0 ==> Token(c) == if IsAlpha(c) then Lower(c) else c
  {
    if Token(c) != 0 && !IsAlphaNum(c) {
      var i: int := if c == '!' as int then 0 else if c <= '\'' as int then c - '"' as int else if c <= '+' as int then c - 36
           else if c <= '.' as int then c - 37 else if c <= '`' as int then c - 84 else if c == '|' as int then 13 else 14;
      assert c == TOKEN_MARKS[i] as int;
    }
  }

  /** `normal_url_char` in the strict build. */
  predicate IsUrlChar(c: byte) {
    32 < c < 127 && c != '#' as int && c != '?' as int
  }

  predicate IsHeaderChar(c: byte) {
    c == CR || c == LF || c == HT || (c > 31 && c != 127)
  }

  /** The `unhex` table. Only its first 128 entries are spelled out in the source, so C
      zero-initialises the rest: an octet above 127 reads as the digit 0, not as -1. */
  function Unhex(c: byte): int {
    if IsNum(c) then c - '0' as int
    else if 'A' as int <= c <= 'F' as int then c - 'A' as int + 10
    else if 'a' as int <= c <= 'f' as int then c - 'a' as int + 10
    else if c >= 128 then 0
    else -1
  }

  /** The octets of a stream that arrives in pieces. */
  function Flatten(pieces: seq<seq<byte>>): seq<byte> {
    if pieces == [] then [] else pieces[0] + Flatten(pieces[1..])
  }
}
