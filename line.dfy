/** `get_stripped_line_length`: the length of a line once trailing whitespace
    (including its newline) is removed. Rust's `str::len` counts UTF-8 bytes, so
    the result is the byte length of the kept prefix. */
module Line {

  /** Rust's `char::is_whitespace`: the Unicode `White_Space` property. */
  predicate IsWhitespace(c: char) {
    ('\t' <= c <= '\r') || c == ' ' || c == '\U{85}' || c == '\U{A0}' || c == '\U{1680}'
    || ('\U{2000}' <= c <= '\U{200A}') || c == '\U{2028}' || c == '\U{2029}'
    || c == '\U{202F}' || c == '\U{205F}' || c == '\U{3000}'
  }

  /** Bytes in the UTF-8 encoding of one character. */
  function Utf8Width(c: char): nat {
    if c as int < 0x80 then 1
    else if c as int < 0x800 then 2
    else if c as int < 0x1_0000 then 3
    else 4
  }

  /** Bytes in the UTF-8 encoding of a string (`str::len`). */
  function Utf8Len(s: seq<char>): nat {
    if s == [] then 0 else Utf8Width(s[0]) + Utf8Len(s[1..])
  }

  /** The number of characters `trim_end` keeps. */
  function KeptChars(s: seq<char>): (k: nat)
    ensures k <= |s|
    ensures forall i :: k <= i < |s| ==> IsWhitespace(s[i])
    ensures k > 0 ==> !IsWhitespace(s[k - 1])
  {
    if s == [] then 0
    else if IsWhitespace(s[|s| - 1]) then KeptChars(s[..|s| - 1])
    else |s|
  }

  /** `s.trim_end()`. */
  function TrimEnd(s: seq<char>): seq<char> {
    s[..KeptChars(s)]
  }

  /** A line of the rope (`RopeSlice`): its text, and whether it lies in one
      chunk, in which case `as_str()` is `Some`. */
  datatype RopeLine = RopeLine(text: seq<char>, contiguous: bool)

  /** `get_stripped_line_length`: on a contiguous line, its byte length less
      the bytes of the trailing whitespace `trim_end` drops; 0 for a slice that
      spans several chunks. */
  function StrippedLength(line: RopeLine): (r: nat)
    ensures line.contiguous ==> r + Utf8Len(line.text[KeptChars(line.text)..]) == Utf8Len(line.text)
    ensures !line.contiguous ==> r == 0
  {
    if line.contiguous then
      var s := line.text;
      var k := KeptChars(s);
      assert s == s[..k] + s[k..];
      Utf8LenAppend(s[..k], s[k..]);
      Utf8Len(TrimEnd(s))
    else 0
  }

  /** A rope as the pager holds it: at least one line (`len_lines` counts the
      empty line after a final newline), a `usize` number of lines and `usize`
      stripped lengths. */
  ghost predicate FileFits(file: seq<RopeLine>) {
    1 <= |file| < 0x1_0000_0000_0000_0000
    && forall i :: 0 <= i < |file| ==> StrippedLength(file[i]) < 0x1_0000_0000_0000_0000
  }

  lemma {:induction false} Utf8LenAppend(a: seq<char>, b: seq<char>)
    ensures Utf8Len(a + b) == Utf8Len(a) + Utf8Len(b)
  {
    if a != [] {
      assert (a + b)[1..] == a[1..] + b;
      Utf8LenAppend(a[1..], b);
    } else {
      assert a + b == b;
    }
  }

  lemma {:induction false} Utf8LenAtLeastLength(s: seq<char>)
    ensures |s| <= Utf8Len(s) <= 4 * |s|
  {
    if s != [] { Utf8LenAtLeastLength(s[1..]); }
  }

  lemma {:induction false} Utf8LenAscii(s: seq<char>)
    requires forall i :: 0 <= i < |s| ==> s[i] as int < 0x80
    ensures Utf8Len(s) == |s|
  {
    if s != [] { Utf8LenAscii(s[1..]); }
  }

  /** The stripped length never exceeds the line's own byte length, and at
      least one byte is counted per kept character. */
  lemma StrippedLengthBounds(line: RopeLine)
    ensures StrippedLength(line) <= Utf8Len(line.text)
    ensures line.contiguous ==> KeptChars(line.text) <= StrippedLength(line)
  {
    var s := line.text;
    var k := KeptChars(s);
    assert s == s[..k] + s[k..];
    Utf8LenAppend(s[..k], s[k..]);
    Utf8LenAtLeastLength(s[..k]);
  }

  /** On an ASCII line the stripped length is the number of kept characters. */
  lemma StrippedLengthAscii(line: RopeLine)
    requires line.contiguous
    requires forall i :: 0 <= i < |line.text| ==> line.text[i] as int < 0x80
    ensures StrippedLength(line) == KeptChars(line.text)
  {
    Utf8LenAscii(TrimEnd(line.text));
  }

  /** A line of whitespace only (a bare newline included) has length 0, and
      conversely a length of 0 on a contiguous line means it is all whitespace. */
  lemma BlankLineHasLengthZero(line: RopeLine)
    ensures StrippedLength(line) == 0 <==>
      !line.contiguous || forall i :: 0 <= i < |line.text| ==> IsWhitespace(line.text[i])
  {
    var s := line.text;
    var k := KeptChars(s);
    if line.contiguous {
      StrippedLengthBounds(line);
      if k > 0 {
        assert !IsWhitespace(s[k - 1]);
      }
    }
  }

  /** Appending whitespace to a line does not change what `trim_end` keeps. */
  lemma {:induction false} TrimEndIgnoresTrailingWhitespace(s: seq<char>, w: seq<char>)
    requires forall i :: 0 <= i < |w| ==> IsWhitespace(w[i])
    ensures TrimEnd(s + w) == TrimEnd(s)
  {
    if w != [] {
      var n := |w| - 1;
      assert (s + w)[..|s + w| - 1] == s + w[..n];
      TrimEndIgnoresTrailingWhitespace(s, w[..n]);
    } else {
      assert s + w == s;
    }
  }
}
