/**
 * The few operations on Python `str` values that the application uses:
 * `strip`, `rstrip(c)`, `split(c)`, `split()`, `splitlines()`, prefix and
 * suffix tests, and decimal digits. Strings are sequences of Unicode scalar
 * values, as Python's are.
 */
module PyStr {
  import opened Wrappers


  /** Python's `str.isspace()` for one character. */
  predicate IsSpace(c: char) {
    c == ' ' || ('\U{9}' <= c <= '\U{D}') || ('\U{1C}' <= c <= '\U{1F}')
    || c == '\U{85}' || c == '\U{A0}' || c == '\U{1680}' || ('\U{2000}' <= c <= '\U{200A}')
    || c == '\U{2028}' || c == '\U{2029}' || c == '\U{202F}' || c == '\U{205F}' || c == '\U{3000}'
  }

  /** The characters at which `str.splitlines()` breaks a line. */
  predicate IsLineBreak(c: char) {
    ('\U{A}' <= c <= '\U{D}') || ('\U{1C}' <= c <= '\U{1E}')
    || c == '\U{85}' || c == '\U{2028}' || c == '\U{2029}'
  }

  /** `x` is one of the ten code points from `zero` on. */
  predicate InRun(x: int, zero: int) {
    zero <= x < zero + 10
  }

  /** The first code point of the run of ten decimal digits (Unicode general category
      Nd) beyond ASCII that holds code point `x`, if any. The runs are those of Unicode
      15.0 and 15.1 (the tables of Python 3.12 and 3.13), in ascending order from
      U+0660. */
  function DigitZero(x: int): (z: Option<int>)
    ensures z.Some? ==> InRun(x, z.value) && z.value >= 0x0660
  {
    if InRun(x, 0x0660) then Some(0x0660)  // Arabic-Indic
    else if InRun(x, 0x06F0) then Some(0x06F0)  // Extended Arabic-Indic
    else if InRun(x, 0x07C0) then Some(0x07C0)  // NKo
    else if InRun(x, 0x0966) then Some(0x0966)  // Devanagari
    else if InRun(x, 0x09E6) then Some(0x09E6)  // Bengali
    else if InRun(x, 0x0A66) then Some(0x0A66)  // Gurmukhi
    else if InRun(x, 0x0AE6) then Some(0x0AE6)  // Gujarati
    else if InRun(x, 0x0B66) then Some(0x0B66)  // Oriya
    else if InRun(x, 0x0BE6) then Some(0x0BE6)  // Tamil
    else if InRun(x, 0x0C66) then Some(0x0C66)  // Telugu
    else if InRun(x, 0x0CE6) then Some(0x0CE6)  // Kannada
    else if InRun(x, 0x0D66) then Some(0x0D66)  // Malayalam
    else if InRun(x, 0x0DE6) then Some(0x0DE6)  // Sinhala Lith
    else if InRun(x, 0x0E50) then Some(0x0E50)  // Thai
    else if InRun(x, 0x0ED0) then Some(0x0ED0)  // Lao
    else if InRun(x, 0x0F20) then Some(0x0F20)  // Tibetan
    else if InRun(x, 0x1040) then Some(0x1040)  // Myanmar
    else if InRun(x, 0x1090) then Some(0x1090)  // Myanmar Shan
    else if InRun(x, 0x17E0) then Some(0x17E0)  // Khmer
    else if InRun(x, 0x1810) then Some(0x1810)  // Mongolian
    else if InRun(x, 0x1946) then Some(0x1946)  // Limbu
    else if InRun(x, 0x19D0) then Some(0x19D0)  // New Tai Lue
    else if InRun(x, 0x1A80) then Some(0x1A80)  // Tai Tham Hora
    else if InRun(x, 0x1A90) then Some(0x1A90)  // Tai Tham Tham
    else if InRun(x, 0x1B50) then Some(0x1B50)  // Balinese
    else if InRun(x, 0x1BB0) then Some(0x1BB0)  // Sundanese
    else if InRun(x, 0x1C40) then Some(0x1C40)  // Lepcha
    else if InRun(x, 0x1C50) then Some(0x1C50)  // Ol Chiki
    else if InRun(x, 0xA620) then Some(0xA620)  // Vai
    else if InRun(x, 0xA8D0) then Some(0xA8D0)  // Saurashtra
    else if InRun(x, 0xA900) then Some(0xA900)  // Kayah Li
    else if InRun(x, 0xA9D0) then Some(0xA9D0)  // Javanese
    else if InRun(x, 0xA9F0) then Some(0xA9F0)  // Myanmar Tai Laing
    else if InRun(x, 0xAA50) then Some(0xAA50)  // Cham
    else if InRun(x, 0xABF0) then Some(0xABF0)  // Meetei Mayek
    else if InRun(x, 0xFF10) then Some(0xFF10)  // Fullwidth
    else if InRun(x, 0x104A0) then Some(0x104A0)  // Osmanya
    else if InRun(x, 0x10D30) then Some(0x10D30)  // Hanifi Rohingya
    else if InRun(x, 0x11066) then Some(0x11066)  // Brahmi
    else if InRun(x, 0x110F0) then Some(0x110F0)  // Sora Sompeng
    else if InRun(x, 0x11136) then Some(0x11136)  // Chakma
    else if InRun(x, 0x111D0) then Some(0x111D0)  // Sharada
    else if InRun(x, 0x112F0) then Some(0x112F0)  // Khudawadi
    else if InRun(x, 0x11450) then Some(0x11450)  // Newa
    else if InRun(x, 0x114D0) then Some(0x114D0)  // Tirhuta
    else if InRun(x, 0x11650) then Some(0x11650)  // Modi
    else if InRun(x, 0x116C0) then Some(0x116C0)  // Takri
    else if InRun(x, 0x11730) then Some(0x11730)  // Ahom
    else if InRun(x, 0x118E0) then Some(0x118E0)  // Warang Citi
    else if InRun(x, 0x11950) then Some(0x11950)  // Dives Akuru
    else if InRun(x, 0x11C50) then Some(0x11C50)  // Bhaiksuki
    else if InRun(x, 0x11D50) then Some(0x11D50)  // Masaram Gondi
    else if InRun(x, 0x11DA0) then Some(0x11DA0)  // Gunjala Gondi
    else if InRun(x, 0x11F50) then Some(0x11F50)  // Kawi
    else if InRun(x, 0x16A60) then Some(0x16A60)  // Mro
    else if InRun(x, 0x16AC0) then Some(0x16AC0)  // Tangsa
    else if InRun(x, 0x16B50) then Some(0x16B50)  // Pahawh Hmong
    else if InRun(x, 0x1D7CE) then Some(0x1D7CE)  // Mathematical Bold
    else if InRun(x, 0x1D7D8) then Some(0x1D7D8)  // Mathematical Double-Struck
    else if InRun(x, 0x1D7E2) then Some(0x1D7E2)  // Mathematical Sans-Serif
    else if InRun(x, 0x1D7EC) then Some(0x1D7EC)  // Mathematical Sans-Serif Bold
    else if InRun(x, 0x1D7F6) then Some(0x1D7F6)  // Mathematical Monospace
    else if InRun(x, 0x1E140) then Some(0x1E140)  // Nyiakeng Puachue Hmong
    else if InRun(x, 0x1E2F0) then Some(0x1E2F0)  // Wancho
    else if InRun(x, 0x1E4F0) then Some(0x1E4F0)  // Nag Mundari
    else if InRun(x, 0x1E950) then Some(0x1E950)  // Adlam
    else if InRun(x, 0x1FBF0) then Some(0x1FBF0)  // Segmented
    else None
  }

  /** `c.isdecimal()`: a decimal digit of any script. These are the characters `re`
      matches with `\d` in a str pattern and those `int()` reads as digits. */
  predicate IsDigit(c: char) {
    ('0' <= c <= '9') || (c as int >= 0x0660 && DigitZero(c as int).Some?)
  }

  /** The value of a decimal digit, `unicodedata.decimal(c)`. */
  function DigitValue(c: char): (d: nat)
    requires IsDigit(c)
    ensures d < 10
    ensures '0' <= c <= '9' ==> d == c as int - '0' as int
  {
    if '0' <= c <= '9' then c as int - '0' as int else c as int - DigitZero(c as int).value
  }

  predicate StartsWith(s: string, prefix: string) {
    |prefix| <= |s| && s[..|prefix|] == prefix
  }

  predicate EndsWith(s: string, suffix: string) {
    |suffix| <= |s| && s[|s| - |suffix|..] == suffix
  }

  /** `s.lstrip()`: drops leading whitespace. */
  function LStrip(s: string): (r: string)
    ensures |r| <= |s| && r == s[|s| - |r|..]
    ensures r == [] || !IsSpace(r[0])
    ensures forall i :: 0 <= i < |s| - |r| ==> IsSpace(s[i])
  {
    if |s| > 0 && IsSpace(s[0]) then LStrip(s[1..]) else s
  }

  /** `s.rstrip()`: drops trailing whitespace. */
  function RStrip(s: string): (r: string)
    ensures |r| <= |s| && r == s[..|r|]
    ensures r == [] || !IsSpace(r[|r| - 1])
    ensures forall i :: |r| <= i < |s| ==> IsSpace(s[i])
  {
    if |s| > 0 && IsSpace(s[|s| - 1]) then RStrip(s[..|s| - 1]) else s
  }

  /** `s.strip()`. */
  function Strip(s: string): string {
    RStrip(LStrip(s))
  }

  /** `piece` occurs in `s` at index `i` with only whitespace before and after it. */
  predicate PaddedAt(s: string, piece: string, i: nat) {
    && i + |piece| <= |s|
    && s[i..i + |piece|] == piece
    && (forall j :: 0 <= j < i ==> IsSpace(s[j]))
    && (forall j :: i + |piece| <= j < |s| ==> IsSpace(s[j]))
  }

  /** What `Strip` keeps is a piece of `s` with only whitespace around it, and
      it is empty exactly when `s` is all whitespace. */
  lemma StripIsPadded(s: string)
    ensures Strip(s) == [] <==> forall j :: 0 <= j < |s| ==> IsSpace(s[j])
    ensures exists i :: PaddedAt(s, Strip(s), i)
  {
    var l := LStrip(s);
    PaddedPiece(s, l, RStrip(l));
    assert PaddedAt(s, Strip(s), |s| - |l|);
  }

  /** The step of `StripIsPadded` on the results of `LStrip` and `RStrip`. */
  lemma PaddedPiece(s: string, l: string, r: string)
    requires |l| <= |s| && l == s[|s| - |l|..]
    requires forall j :: 0 <= j < |s| - |l| ==> IsSpace(s[j])
    requires |r| <= |l| && r == l[..|r|]
    requires forall j :: |r| <= j < |l| ==> IsSpace(l[j])
    requires r == [] || !IsSpace(r[0])
    ensures PaddedAt(s, r, |s| - |l|)
    ensures r == [] <==> forall j :: 0 <= j < |s| ==> IsSpace(s[j])
  {
    var i := |s| - |l|;
    assert s[i..i + |r|] == r by {
      assert s[i..i + |r|] == s[i..][..|r|];
    }
    forall j | i + |r| <= j < |s| ensures IsSpace(s[j]) {
      assert s[j] == l[j - i];
    }
    if r != [] {
      assert s[i] == r[0];
    }
  }

  /** `s.rstrip(c)`: drops every trailing occurrence of `c`. */
  function RStripChar(s: string, c: char): (r: string)
    ensures |r| <= |s| && r == s[..|r|]
    ensures r == [] || r[|r| - 1] != c
    ensures forall i :: |r| <= i < |s| ==> s[i] == c
  {
    if |s| > 0 && s[|s| - 1] == c then RStripChar(s[..|s| - 1], c) else s
  }

  /** Index of the first occurrence of `c` in `s`, which must occur. */
  function IndexOf(s: string, c: char): (i: nat)
    requires c in s
    ensures i < |s| && s[i] == c && c !in s[..i]
  {
    if s[0] == c then 0 else 1 + IndexOf(s[1..], c)
  }

  /** `s.split(c)`: the pieces between the occurrences of `c`, empty ones kept. */
  function Split(s: string, c: char): (parts: seq<string>)
    ensures |parts| >= 1
    ensures forall k :: 0 <= k < |parts| ==> c !in parts[k]
    decreases |s|
  {
    if c in s then
      var i := IndexOf(s, c);
      [s[..i]] + Split(s[i + 1..], c)
    else [s]
  }

  /** The inverse of `Split`: the pieces joined with `c`. */
  function Join(parts: seq<string>, c: char): string
    requires |parts| >= 1
  {
    if |parts| == 1 then parts[0] else parts[0] + [c] + Join(parts[1..], c)
  }

  /** The runs of characters not satisfying `sep`, in order; empty runs dropped. */
  function Fields(s: string, sep: char -> bool): (r: seq<string>)
    ensures forall k :: 0 <= k < |r| ==> r[k] != [] && forall j :: 0 <= j < |r[k]| ==> !sep(r[k][j])
    decreases |s|
  {
    if s == [] then []
    else if sep(s[0]) then Fields(s[1..], sep)
    else
      var n := RunLength(s, sep);
      [s[..n]] + Fields(s[n..], sep)
  }

  /** Length of the leading run of characters of `s` not satisfying `sep`. */
  function RunLength(s: string, sep: char -> bool): (n: nat)
    ensures n <= |s|
    ensures forall j :: 0 <= j < n ==> !sep(s[j])
    ensures n < |s| ==> sep(s[n])
  {
    if s == [] || sep(s[0]) then 0 else 1 + RunLength(s[1..], sep)
  }

  /** `s.split()` with no argument: the whitespace-separated words. */
  function Words(s: string): seq<string> {
    Fields(s, IsSpace)
  }

  /** The pieces of `s` between line breaks, empty pieces kept. Every non-blank
      piece is exactly a non-blank line of `s.splitlines()`: the two differ only
      by empty pieces (after a "\r\n" pair or at the very end). */
  function SplitLines(s: string): (r: seq<string>)
    ensures |r| >= 1
    ensures forall k :: 0 <= k < |r| ==> forall j :: 0 <= j < |r[k]| ==> !IsLineBreak(r[k][j])
    decreases |s|
  {
    var n := RunLength(s, IsLineBreak);
    if n == |s| then [s] else [s[..n]] + SplitLines(s[n + 1..])
  }

  /** Value of a string of decimal digits. */
  function DigitsValue(s: string): (n: nat)
    requires forall j :: 0 <= j < |s| ==> IsDigit(s[j])
  {
    if s == [] then 0
    else
      assert IsDigit(s[|s| - 1]);
      10 * DigitsValue(s[..|s| - 1]) + DigitValue(s[|s| - 1])
  }

  /** Python's `str(n)` for a natural number. */
  function NatToString(n: nat): (s: string)
    ensures s != [] && forall j :: 0 <= j < |s| ==> '0' <= s[j] <= '9' && IsDigit(s[j])
  {
    if n < 10 then [('0' as int + n) as char] else NatToString(n / 10) + [('0' as int + n % 10) as char]
  }

  /** Python's `str(n)` for any integer. */
  function IntToString(n: int): (s: string)
    ensures n >= 0 ==> s == NatToString(n)
    ensures n < 0 ==> s == "-" + NatToString(-n)
  {
    if n >= 0 then NatToString(n) else "-" + NatToString(-n)
  }

  /** `int(str(n)) == n`. */
  lemma {:induction false} DigitsOfNatToString(n: nat)
    ensures DigitsValue(NatToString(n)) == n
  {
    if n >= 10 {
      var s := NatToString(n);
      assert s[..|s| - 1] == NatToString(n / 10);
      DigitsOfNatToString(n / 10);
    }
  }

  /** `Join` undoes `Split`. */
  lemma {:induction false} JoinSplit(s: string, c: char)
    ensures Join(Split(s, c), c) == s
    decreases |s|
  {
    if c in s {
      var i := IndexOf(s, c);
      var parts := Split(s, c);
      assert parts == [s[..i]] + Split(s[i + 1..], c);
      assert parts[0] == s[..i] && parts[1..] == Split(s[i + 1..], c);
      JoinSplit(s[i + 1..], c);
      assert Join(parts, c) == s[..i] + [c] + s[i + 1..];
      assert s == s[..i] + [c] + s[i + 1..];
    }
  }
  /** Python's `a <= b` on strings: lexicographic by code point, a prefix first. */
  predicate StrLe(a: string, b: string)
    decreases |a|
  {
    a == [] || (b != [] && (a[0] < b[0] || (a[0] == b[0] && StrLe(a[1..], b[1..]))))
  }

  lemma {:induction false} StrLeTotal(a: string, b: string)
    ensures StrLe(a, b) || StrLe(b, a)
    decreases |a|
  {
    if a != [] && b != [] && a[0] == b[0] {
      StrLeTotal(a[1..], b[1..]);
    }
  }

  lemma {:induction false} StrLeTrans(a: string, b: string, c: string)
    requires StrLe(a, b) && StrLe(b, c)
    ensures StrLe(a, c)
    decreases |a|
  {
    if a != [] && b != [] && c != [] && a[0] == b[0] == c[0] {
      StrLeTrans(a[1..], b[1..], c[1..]);
    }
  }

  lemma {:induction false} StrLeAntisym(a: string, b: string)
    requires StrLe(a, b) && StrLe(b, a)
    ensures a == b
    decreases |a|
  {
    if a != [] {
      StrLeAntisym(a[1..], b[1..]);
      assert a == [a[0]] + a[1..] && b == [b[0]] + b[1..];
    }
  }
}
