/** Byte values and the character classes of section 7.2.2 of ISO 32000-1
    (Table 1, white-space characters; Table 2, delimiter characters). The
    parser's base class, which holds isWhitespace and isClosing, is not part
    of this model: these predicates are the assumed behaviour of those
    helpers. */
module Lexical {

  /** One byte of a decoded content stream. */
  type Byte = b: int | 0 <= b < 256

  /** What a peek or read returns: a byte, or -1 at end of input. */
  function First(s: seq<Byte>): (c: int)
    ensures s == [] <==> c == -1
    ensures s != [] ==> c == s[0]
  {
    if s == [] then -1 else s[0]
  }

  /** What is left after a read: a read at end of input consumes nothing. */
  function Tail(s: seq<Byte>): seq<Byte>
  {
    if s == [] then [] else s[1..]
  }

  /** Table 1: NUL, HT, LF, FF, CR and SPACE. End of input (-1) is not white-space. */
  predicate IsWhitespace(c: int)
  {
    c == 0 || c == 9 || c == 10 || c == 12 || c == 13 || c == 32
  }

  /** The closing delimiters of Table 2: ')', '>', ']' and '}'. */
  predicate IsClosing(c: int)
  {
    c == ')' as int || c == '>' as int || c == ']' as int || c == '}' as int
  }

  /** All delimiters of Table 2. */
  predicate IsDelimiter(c: int)
  {
    IsClosing(c) || c == '(' as int || c == '<' as int || c == '[' as int
    || c == '{' as int || c == '/' as int || c == '%' as int
  }

  /** A regular character: neither white-space nor a delimiter. */
  predicate IsRegular(c: int)
  {
    0 <= c < 256 && !IsWhitespace(c) && !IsDelimiter(c)
  }

  /** Java's Character.isDigit restricted to code points 0..255 is exactly '0'..'9'. */
  predicate IsDigit(c: int)
  {
    '0' as int <= c <= '9' as int
  }

  /** The ISO-8859-1 reading of bytes as characters, as Java's (char) cast does. */
  function Chars(bs: seq<Byte>): (s: string)
    ensures |s| == |bs|
  {
    if bs == [] then [] else [bs[0] as char] + Chars(bs[1..])
  }

  lemma {:induction false} CharsAppend(a: seq<Byte>, b: seq<Byte>)
    ensures Chars(a + b) == Chars(a) + Chars(b)
  {
    if a != [] {
      assert (a + b)[1..] == a[1..] + b;
      CharsAppend(a[1..], b);
    } else {
      assert a + b == b;
    }
  }

  /** Java's String.trim() removes every leading and trailing character up to
      U+0020, so a word trims to the empty string exactly when all its
      characters are at most U+0020. */
  predicate Blank(w: string)
  {
    w == [] || (w[0] <= ' ' && Blank(w[1..]))
  }

  /** A loop that has read t[..i] and then the bytes `chunk`. */
  lemma ChunkStep(t: seq<Byte>, i: nat, chunk: seq<Byte>)
    requires i <= |t| && |chunk| <= |t| - i && chunk == t[i..][..|chunk|]
    ensures t[..i] + chunk == t[..i + |chunk|]
    ensures t[i..][|chunk|..] == t[i + |chunk|..]
  {
  }

  /** Growing a prefix of `t` by one element. */
  lemma PrefixStep(t: seq<Byte>, i: nat)
    requires i < |t|
    ensures t[..i + 1] == t[..i] + [t[i]]
    ensures Tail(t[i..]) == t[i + 1..]
  {
  }
}
