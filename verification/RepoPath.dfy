/** The path of a stored file inside the repository (src/repository.c:65-93). */
module RepoPath {
  import opened Data
  import opened Metadata

  const CHAR_X: Byte := 120

  function HexDigit(d: nat): Byte
    requires d < 16
  {
    if d < 10 then 48 + d else 87 + d
  }

  function DigitValue(c: Byte): nat {
    if 48 <= c < 58 then c - 48 else if 97 <= c < 103 then c - 87 else 0
  }

  /** printf("%02x") of one byte */
  function HexByte(b: Byte): (r: Bytes)
    ensures |r| == 2
  {
    [HexDigit(b / 16), HexDigit(b % 16)]
  }

  /** printf("%x") */
  function HexNumber(n: nat): (r: Bytes)
    ensures |r| > 0
    ensures forall i :: 0 <= i < |r| ==> r[i] != CHAR_X && r[i] != 0
  {
    if n < 16 then [HexDigit(n)] else HexNumber(n / 16) + [HexDigit(n % 16)]
  }

  function HexBytes(bs: Bytes): (r: Bytes)
    ensures |r| == 2 * |bs|
  {
    if bs == [] then [] else HexBytes(bs[..|bs| - 1]) + HexByte(bs[|bs| - 1])
  }

  function Suffix(size: U64, slot: Byte): Bytes {
    [CHAR_X] + HexNumber(size) + [CHAR_X] + HexNumber(slot)
  }

  /** One hex digit of the hash, a slash, two digits, a slash, the other digits; then size and slot. */
  function FilePath(hash: Hash, size: U64, slot: Byte): Bytes {
    var h := HexBytes(hash);
    [h[0], SLASH, h[1], h[2], SLASH] + h[3..] + Suffix(size, slot)
  }

  function PathOf(i: FileInfo): Bytes { FilePath(i.hash, i.size, i.slot) }

  /** getFilePathRequiredCapacity(), which includes the terminating null byte. */
  function RequiredCapacity(i: FileInfo): nat {
    |HexNumber(i.slot)| + |HexNumber(i.size)| + 2 * FILE_HASH_SIZE + 5
  }

  // ----- injectivity -----

  lemma {:induction false} HexDigitInjective(a: nat, b: nat)
    requires a < 16 && b < 16 && HexDigit(a) == HexDigit(b)
    ensures a == b
  {
    assert DigitValue(HexDigit(a)) == a && DigitValue(HexDigit(b)) == b;
  }

  lemma {:induction false} HexNumberInjective(a: nat, b: nat)
    requires HexNumber(a) == HexNumber(b)
    ensures a == b
  {
    var x, y := HexNumber(a), HexNumber(b);
    assert x[|x| - 1] == HexDigit(a % 16) && y[|y| - 1] == HexDigit(b % 16);
    HexDigitInjective(a % 16, b % 16);
    if a >= 16 && b >= 16 {
      assert x[..|x| - 1] == HexNumber(a / 16) && y[..|y| - 1] == HexNumber(b / 16);
      HexNumberInjective(a / 16, b / 16);
    }
  }

  lemma {:induction false} HexBytesInjective(a: Bytes, b: Bytes)
    requires HexBytes(a) == HexBytes(b)
    ensures a == b
  {
    if a != [] && b != [] {
      var x, y := HexBytes(a), HexBytes(b);
      var n := |x|;
      assert x[..n - 2] == HexBytes(a[..|a| - 1]) && y[..n - 2] == HexBytes(b[..|b| - 1]);
      HexBytesInjective(a[..|a| - 1], b[..|b| - 1]);
      assert x[n - 2..] == HexByte(a[|a| - 1]) && y[n - 2..] == HexByte(b[|b| - 1]);
      HexByteInjective(a[|a| - 1], b[|b| - 1]);
      assert a == a[..|a| - 1] + [a[|a| - 1]] && b == b[..|b| - 1] + [b[|b| - 1]];
    }
  }

  lemma {:induction false} HexByteInjective(a: Byte, b: Byte)
    requires HexByte(a) == HexByte(b)
    ensures a == b
  {
    assert HexByte(a)[0] == HexByte(b)[0] && HexByte(a)[1] == HexByte(b)[1];
    HexDigitInjective(a / 16, b / 16);
    HexDigitInjective(a % 16, b % 16);
  }

  lemma {:induction false} SuffixInjective(m: U64, s: Byte, n: U64, t: Byte)
    requires Suffix(m, s) == Suffix(n, t)
    ensures m == n && s == t
  {
    var a, b := HexNumber(m), HexNumber(n);
    var x := Suffix(m, s);
    assert x[1 + |a|] == CHAR_X && x[1 + |b|] == CHAR_X;
    assert forall i :: 0 <= i < |a| ==> x[1 + i] == a[i];
    assert forall i :: 0 <= i < |b| ==> x[1 + i] == b[i];
    assert a == x[1..1 + |a|] && b == x[1..1 + |b|];
    assert x[2 + |a|..] == HexNumber(s) && x[2 + |b|..] == HexNumber(t);
    HexNumberInjective(m, n);
    HexNumberInjective(s, t);
  }

  /** Different (hash, size, slot) have different paths. */
  lemma {:induction false} FilePathInjective(g: Hash, m: U64, s: Byte, h: Hash, n: U64, t: Byte)
    requires FilePath(g, m, s) == FilePath(h, n, t)
    ensures g == h && m == n && s == t
  {
    var a, b, p := HexBytes(g), HexBytes(h), FilePath(g, m, s);
    assert a[0] == p[0] && a[1] == p[2] && a[2] == p[3] && a[3..] == p[5..42];
    assert b[0] == p[0] && b[1] == p[2] && b[2] == p[3] && b[3..] == p[5..42];
    assert a == [a[0], a[1], a[2]] + a[3..] && b == [b[0], b[1], b[2]] + b[3..];
    assert p[42..] == Suffix(m, s) && p[42..] == Suffix(n, t);
    HexBytesInjective(g, h);
    SuffixInjective(m, s, n, t);
  }

  // ----- the buffer -----

  /** sprintf() to the given position: the text and a terminating null byte. */
  method Print(buffer: array<Byte>, at: nat, text: Bytes)
    requires at + |text| < buffer.Length
    modifies buffer
    ensures buffer[..at] == old(buffer[..at])
    ensures buffer[at..at + |text|] == text && buffer[at + |text|] == 0
    ensures buffer[at + |text| + 1..] == old(buffer[at + |text| + 1..])
  {
    var i := 0;
    while i < |text|
      invariant 0 <= i <= |text|
      invariant forall j :: 0 <= j < i ==> buffer[at + j] == text[j]
      invariant forall j :: 0 <= j < buffer.Length && !(at <= j < at + i) ==> buffer[j] == old(buffer[j])
    {
      buffer[at + i] := text[i];
      i := i + 1;
    }
    buffer[at + |text|] := 0;
  }

  /** The two sprintf() calls and four moves that put a slash after the first and the third digit. */
  method PrintHead(buffer: array<Byte>, hash: Hash)
    requires buffer.Length > 6
    modifies buffer
    ensures buffer[..6] == Head(hash)
  {
    Print(buffer, 0, HexByte(hash[0]));
    assert buffer[0..2] == HexByte(hash[0]);
    assert buffer[0] == buffer[0..2][0] && buffer[1] == buffer[0..2][1];
    ghost var front := buffer[..3];
    Print(buffer, 3, HexByte(hash[1]));
    assert buffer[..3] == front && buffer[0] == front[0] && buffer[1] == front[1];
    assert buffer[3] == buffer[3..5][0] && buffer[4] == buffer[3..5][1];
    buffer[2] := buffer[1];
    buffer[1] := SLASH;
    buffer[5] := buffer[4];
    buffer[4] := SLASH;
    FirstDigits(hash);
  }

  function Head(hash: Hash): Bytes {
    var h := HexBytes(hash);
    [h[0], SLASH, h[1], h[2], SLASH, h[3]]
  }

  method PrintRest(buffer: array<Byte>, hash: Hash)
    requires buffer.Length > 42 && buffer[..6] == Head(hash)
    modifies buffer
    ensures buffer[..42] == Head(hash) + HexBytes(hash)[4..]
  {
    hide HexByte, HexBytes;
    ghost var h := HexBytes(hash);
    var index := 2;
    while index < FILE_HASH_SIZE
      invariant 2 <= index <= FILE_HASH_SIZE
      invariant buffer[..2 + 2 * index] == Head(hash) + h[4..2 * index]
    {
      ghost var before := buffer[..2 + 2 * index];
      Print(buffer, 2 + 2 * index, HexByte(hash[index]));
      DigitsAt(hash, index);
      assert buffer[..4 + 2 * index] == before + HexByte(hash[index]);
      assert h[4..2 * index] + h[2 * index..2 * index + 2] == h[4..2 * index + 2];
      index := index + 1;
    }
  }

  /** buildFilePath(): every write, including the null bytes of sprintf(), stays inside the capacity
      that getFilePathRequiredCapacity() computes, and fills it completely. */
  method BuildFilePath(buffer: array<Byte>, info: FileInfo)
    requires buffer.Length >= RequiredCapacity(info)
    modifies buffer
    ensures |PathOf(info)| + 1 == RequiredCapacity(info)
    ensures buffer[..|PathOf(info)|] == PathOf(info) && buffer[|PathOf(info)|] == 0
  {
    hide HexNumber, HexBytes, HexByte;
    ghost var h := HexBytes(info.hash);
    PrintHead(buffer, info.hash);
    PrintRest(buffer, info.hash);
    ghost var front := buffer[..42];
    var suffix := Suffix(info.size, info.slot);
    Print(buffer, 42, suffix);
    assert h[3..] == [h[3]] + h[4..];
    assert front == [h[0], SLASH, h[1], h[2], SLASH] + h[3..];
    assert buffer[..42 + |suffix|] == front + suffix;
  }

  lemma {:induction false} DigitsAt(bs: Bytes, i: nat)
    requires i < |bs|
    ensures HexBytes(bs)[2 * i..2 * i + 2] == HexByte(bs[i])
  {
    if i < |bs| - 1 { DigitsAt(bs[..|bs| - 1], i); }
  }

  lemma {:induction false} FirstDigits(hash: Hash)
    ensures var h := HexBytes(hash);
      HexByte(hash[0]) == [h[0], h[1]] && HexByte(hash[1]) == [h[2], h[3]]
  {
    DigitsAt(hash, 0);
    DigitsAt(hash, 1);
    var h := HexBytes(hash);
    assert h[0..2] == [h[0], h[1]] && h[2..4] == [h[2], h[3]];
  }
}
