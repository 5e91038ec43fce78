/** Small pieces of Python's text handling that several scripts share. */
module Text {

  /** The characters that `str.strip` and `\s` treat as white space. */
  predicate IsSpace(c: char)
  {
    || c == ' ' || '\t' <= c <= '\r' || '\U{1c}' <= c <= '\U{1f}' || c == '\U{85}' || c == '\U{a0}' || c == '\U{1680}'
    || '\U{2000}' <= c <= '\U{200a}' || c in "\U{2028}\U{2029}\U{202f}\U{205f}\U{3000}"
  }

  predicate IsHex(c: char) { '0' <= c <= '9' || 'a' <= c <= 'f' }

  function Strip(s: string): string
  {
    if s != [] && IsSpace(s[0]) then Strip(s[1..])
    else if s != [] && IsSpace(s[|s| - 1]) then Strip(s[..|s| - 1])
    else s
  }

  function Decimal(n: nat): string
  {
    (if n < 10 then [] else Decimal(n / 10)) + [(48 + n % 10) as char]
  }

  /** `s[:n]`. */
  function Take(s: string, n: nat): string { if |s| <= n then s else s[..n] }
}
