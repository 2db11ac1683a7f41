/** The few pieces of java.lang.String and of commons-lang3's StringUtils that
    the entry service relies on. A Java string is modelled as a sequence of
    Unicode scalar values, and the indexes of `IndexOf`, `Substring` and
    `SubstringFrom` count those characters, not UTF-16 code units as Java does.
    The indexes passed to `Substring` and `SubstringFrom` come from `IndexOf` on
    the same string, so the pieces they cut out are the ones Java cuts out;
    `Utf16Length` gives the length Java reports. Character classes and
    exception contents follow Java 9 and later. */
module JavaStrings {
  import opened Wrappers

  /** The characters Character.isWhitespace accepts, listed one by one. */
  const JavaWhitespace: set<char> := {
      ' ', '\U{9}', '\U{A}', '\U{B}', '\U{C}', '\U{D}', '\U{1C}', '\U{1D}',
      '\U{1E}', '\U{1F}', '\U{1680}', '\U{2000}', '\U{2001}', '\U{2002}',
      '\U{2003}', '\U{2004}', '\U{2005}', '\U{2006}', '\U{2008}', '\U{2009}',
      '\U{200A}', '\U{2028}', '\U{2029}', '\U{205F}', '\U{3000}'}

  /** Character.isWhitespace as of Java 9 (Unicode 8 and later): the Unicode
      space, line and paragraph separators other than the non-breaking ones
      (U+00A0, U+2007, U+202F), and the ASCII controls HT, LF, VT, FF, CR and
      FS, GS, RS, US. Java 8 (Unicode 6.2) also counts U+180E. The contract
      ties the range tests below to the enumerated set. */
  predicate IsWhitespace(c: char): (r: bool)
    ensures r <==> c in JavaWhitespace
    ensures c == ' ' || c == '\t' || c == '\n' || c == '\r' ==> r
    ensures r ==> c != '\U{A0}' && c != '\U{2007}' && c != '\U{202F}' && c != '\U{180E}'
    ensures r ==> c <= '\U{3000}'
  {
    || c == ' '
    || ('\U{9}' <= c <= '\U{D}')
    || ('\U{1C}' <= c <= '\U{1F}')
    || c == '\U{1680}'
    || ('\U{2000}' <= c <= '\U{2006}')
    || ('\U{2008}' <= c <= '\U{200A}')
    || c == '\U{2028}'
    || c == '\U{2029}'
    || c == '\U{205F}'
    || c == '\U{3000}'
  }

  /** StringUtils.isBlank: the string is null, empty, or whitespace only. */
  predicate IsBlank(cs: Option<string>): (r: bool)
    ensures cs == None || cs == Some("") ==> r
    ensures !r <==> cs.Some? && exists i :: 0 <= i < |cs.value| && !IsWhitespace(cs.value[i])
  {
    cs.None? || forall i :: 0 <= i < |cs.value| ==> IsWhitespace(cs.value[i])
  }

  /** String.indexOf(char): the index, in characters, of the first occurrence
      of `c`, or -1. */
  function IndexOf(s: string, c: char): (r: int)
    ensures r == -1 <==> c !in s
    ensures r != -1 ==> 0 <= r < |s| && s[r] == c && forall j :: 0 <= j < r ==> s[j] != c
  {
    if |s| == 0 then -1
    else if s[0] == c then 0
    else
      var k := IndexOf(s[1..], c);
      if k == -1 then -1
      else k + 1
  }

  /** String.length(): the number of UTF-16 code units, two for each scalar
      value above U+FFFF. */
  function Utf16Length(s: string): (r: nat)
    ensures |s| <= r <= 2 * |s|
    ensures |s| == 1 ==> r == (if s[0] < '\U{10000}' then 1 else 2)
    ensures r == |s| <==> forall i :: 0 <= i < |s| ==> s[i] < '\U{10000}'
  {
    if |s| == 0 then 0
    else (if s[0] < '\U{10000}' then 1 else 2) + Utf16Length(s[1..])
  }

  /** String.substring(begin, end), indexes counted in characters: the
      characters from `begin` up to `end`;
      None where Java throws StringIndexOutOfBoundsException. */
  function Substring(s: string, begin: int, end: int): (r: Option<string>)
    ensures r.Some? <==> 0 <= begin <= end <= |s|
    ensures r.Some? ==> |r.value| == end - begin && forall i :: 0 <= i < |r.value| ==> r.value[i] == s[begin + i]
  {
    if 0 <= begin <= end <= |s| then Some(s[begin..end]) else None
  }

  /** String.substring(begin), the index counted in characters: the suffix
      starting at `begin`; None where
      Java throws StringIndexOutOfBoundsException. */
  function SubstringFrom(s: string, begin: int): (r: Option<string>)
    ensures r.Some? <==> 0 <= begin <= |s|
    ensures r.Some? ==> |r.value| == |s| - begin && forall i :: 0 <= i < |r.value| ==> r.value[i] == s[begin + i]
  {
    if 0 <= begin <= |s| then Some(s[begin..]) else None
  }

  /** The UTF-16 length of a concatenation is the sum of the lengths: each
      character contributes its own one or two code units. */
  lemma {:induction false} Utf16LengthAppend(a: string, b: string)
    ensures Utf16Length(a + b) == Utf16Length(a) + Utf16Length(b)
    decreases |a|
  {
    if |a| > 0 {
      assert (a + b)[1..] == a[1..] + b;
      Utf16LengthAppend(a[1..], b);
    } else {
      assert a + b == b;
    }
  }

  /** The pieces cut out by `substring` put the string back together: the
      prefix before `begin`, the piece, and the suffix from `end`. */
  lemma SubstringRebuildsString(s: string, begin: int, end: int)
    requires Substring(s, begin, end).Some?
    requires SubstringFrom(s, end).Some?
    ensures s == s[..begin] + Substring(s, begin, end).value + SubstringFrom(s, end).value
  {
    var piece := Substring(s, begin, end).value;
    var suffix := SubstringFrom(s, end).value;
    assert piece == s[begin..end];
    assert suffix == s[end..];
    assert s == s[..begin] + s[begin..end] + s[end..];
  }
}
