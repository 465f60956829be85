/** The bytes themselves: what the paths of stored files look like, and the metadata of a small repository
    byte by byte. */
module Vectors {
  import opened Data
  import opened Str
  import opened Metadata
  import opened Backup
  import opened RepoPath
  import opened Codec
  import opened GarbageCollector
  import opened ConfigMeaning

  // ----- paths of stored files -----

  const HexDigits: string := "0123456789abcdef"

  lemma {:induction false} DigitIs(d: nat)
    requires d < 16
    ensures HexDigit(d) == HexDigits[d] as int
  {
    assert HexDigits[0] == '0' && HexDigits[1] == '1' && HexDigits[2] == '2' && HexDigits[3] == '3';
    assert HexDigits[4] == '4' && HexDigits[5] == '5' && HexDigits[6] == '6' && HexDigits[7] == '7';
    assert HexDigits[8] == '8' && HexDigits[9] == '9' && HexDigits[10] == 'a' && HexDigits[11] == 'b';
    assert HexDigits[12] == 'c' && HexDigits[13] == 'd' && HexDigits[14] == 'e' && HexDigits[15] == 'f';
  }

  lemma {:induction false} HexBytesAt(bs: Bytes, i: nat)
    requires i < |bs|
    ensures HexBytes(bs)[2 * i] == HexDigits[bs[i] / 16] as int && HexBytes(bs)[2 * i + 1] == HexDigits[bs[i] % 16] as int
  {
    if i == |bs| - 1 {
      DigitIs(bs[i] / 16);
      DigitIs(bs[i] % 16);
    } else {
      HexBytesAt(bs[..|bs| - 1], i);
    }
  }

  /** The number that hexadecimal digits stand for. */
  ghost predicate IsHex(s: Bytes, n: nat)
    decreases |s|
  {
    && s != [] && s[|s| - 1] == HexDigits[n % 16] as int
    && if |s| == 1 then n < 16 else IsHex(s[..|s| - 1], n / 16)
  }

  lemma {:induction false} HexNumberIs(n: nat)
    ensures IsHex(HexNumber(n), n) && (n > 0 ==> HexNumber(n)[0] != 48)
  {
    DigitIs(n % 16);
    if n >= 16 {
      HexNumberIs(n / 16);
      assert HexNumber(n)[..|HexNumber(n)| - 1] == HexNumber(n / 16);
    }
  }

  /** Where the k-th digit of the hash is: after the first and after the third there is a slash. */
  function Place(k: nat): nat { if k == 0 then 0 else if k < 3 then k + 1 else k + 2 }

  /** The path of a stored file: a digit of the hash, a slash, two digits, a slash, all others, an "x", the
      size, an "x" and the slot, in lower-case hexadecimal digits. */
  lemma {:induction false} FilePathIs(hash: Hash, size: U64, slot: Byte) returns (sizeText: Bytes, slotText: Bytes)
    ensures IsHex(sizeText, size) && IsHex(slotText, slot)
    ensures (size > 0 ==> sizeText[0] != 48) && (slot > 0 ==> slotText[0] != 48)
    ensures var p := FilePath(hash, size, slot);
      && |p| >= 42 && p[1] == 47 && p[4] == 47 && p[42..] == [120] + sizeText + [120] + slotText
      && forall i :: 0 <= i < 20 ==>
           p[Place(2 * i)] == HexDigits[hash[i] / 16] as int && p[Place(2 * i + 1)] == HexDigits[hash[i] % 16] as int
  {
    sizeText, slotText := HexNumber(size), HexNumber(slot);
    HexNumberIs(size);
    HexNumberIs(slot);
    var p, h := FilePath(hash, size, slot), HexBytes(hash);
    hide HexNumber, HexBytes;
    forall i | 0 <= i < 20
      ensures p[Place(2 * i)] == HexDigits[hash[i] / 16] as int && p[Place(2 * i + 1)] == HexDigits[hash[i] % 16] as int
    {
      HexBytesAt(hash, i);
    }
  }

  // ----- numbers -----

  lemma {:induction false} Small(v: nat, n: nat)
    requires v < 256 && n > 0
    ensures ToLE(v, n) == [v] + Zeros(n - 1)
  {
    forall i | 0 <= i < n ensures DigitAt(v, i) == if i == 0 then v else 0 { SmallDigit(v, i); }
  }

  lemma {:induction false} SmallDigit(v: nat, i: nat)
    requires v < 256
    ensures DigitAt(v, i) == if i == 0 then v else 0
  {
    if i > 0 { SmallDigit(v / 256, i - 1); }
  }

  /** The i-th byte counts 256 to the power of i. */
  lemma {:induction false} DigitIsByte(v: nat, i: nat)
    ensures DigitAt(v, i) == v / Pow256(i) % 256
  {
    if i > 0 {
      DigitIsByte(v / 256, i - 1);
      DivTwice(v, Pow256(i - 1));
    }
  }

  lemma {:induction false} DivTwice(v: nat, p: nat)
    requires p > 0
    ensures v / 256 / p == v / (256 * p)
  {
    var q, r := v / 256, v % 256;
    var x, y := q / p, q % p;
    assert v == 256 * q + r && q == p * x + y;
    assert v == 256 * (p * x + y) + r == (256 * p) * x + (256 * y + r);
    assert 256 * y + r < 256 * p;
    Quotient(v, 256 * p, x, 256 * y + r);
  }

  lemma {:induction false} Smaller(d: nat, q: nat, r: nat, x: nat, y: nat)
    requires q < x && r < d
    ensures d * q + r < d * x + y
  {
    assert d * x >= d * (q + 1);
  }

  lemma {:induction false} Quotient(v: nat, d: nat, x: nat, y: nat)
    requires v == d * x + y && y < d
    ensures v / d == x
  {
    var q, r := v / d, v % d;
    if q < x { Smaller(d, q, r, x, y); }
    if x < q { Smaller(d, x, y, q, r); }
  }

  // ----- states -----

  function Eight(v: Byte): Bytes { [v, 0, 0, 0, 0, 0, 0, 0] }

  function Four(v: Byte): Bytes { [v, 0, 0, 0] }

  lemma {:induction false} SmallOnes(v: Byte)
    ensures ToLE(v, 8) == Eight(v) && ToLE(v, 4) == Four(v)
  {
    Small(v, 8);
    Small(v, 4);
  }

  /** The number 0x0102 and the time two seconds before the epoch show the order of the bytes. */
  lemma {:induction false} Ordered()
    ensures ToLE(0x0102, 4) == [2, 1, 0, 0]
    ensures ToLE(TimeToU64(-2), 8) == [254, 255, 255, 255, 255, 255, 255, 255]
  {
    assert DigitAt(0x0102, 0) == 2 && DigitAt(1, 0) == 1 && DigitAt(0, 0) == 0;
    assert DigitAt(0x0102, 1) == 1 && DigitAt(0x0102, 2) == DigitAt(1, 1) == 0 && DigitAt(0x0102, 3) == DigitAt(1, 2) == DigitAt(0, 1) == 0;
    AllOnes(0xFFFF_FFFF_FFFF_FFFE);
  }

  lemma {:induction false} AllOnes(v: nat)
    requires v == 0xFFFF_FFFF_FFFF_FFFE
    ensures ToLE(v, 8) == [254, 255, 255, 255, 255, 255, 255, 255]
  {
    assert v / 256 == 0xFF_FFFF_FFFF_FFFF && v % 256 == 254;
    Ones(0xFF_FFFF_FFFF_FFFF, 7);
    forall i | 0 <= i < 8 ensures DigitAt(v, i) == if i == 0 then 254 else 255 {
      if i > 0 { assert ToLE(v / 256, 7)[i - 1] == 255; }
    }
  }

  lemma {:induction false} Ones(v: nat, n: nat)
    requires v == Pow256(n) - 1
    ensures forall i :: 0 <= i < n ==> ToLE(v, n)[i] == 255
  {
    if n > 0 {
      assert v / 256 == Pow256(n - 1) - 1 && v % 256 == 255;
      Ones(v / 256, n - 1);
      forall i | 0 <= i < n ensures DigitAt(v, i) == 255 {
        if i > 0 { assert ToLE(v / 256, n - 1)[i - 1] == 255; }
      }
    }
  }

  /** A state that is there: its type, the owner, the group, and what belongs to the type. */
  function Tagged(tag: Byte, uid: Byte, gid: Byte, rest: Bytes): Bytes { [tag] + (Four(uid) + (Four(gid) + rest)) }

  lemma {:induction false} StateIsTagged(s: PathState, tag: Byte, uid: Byte, gid: Byte)
    requires !s.NonExisting? && s.uid == uid && s.gid == gid && TypeCode(s) == tag
    ensures EncState(s) == Tagged(tag, uid, gid, EncBody(s))
  {
    hide ToLE;
    SmallOnes(uid);
    SmallOnes(gid);
  }

  /** A file of at most twenty bytes is in the place of its hash. */
  lemma {:induction false} SmallFileBytes(i: FileInfo)
    requires i.mode == 0x0102 && i.mtime == -2 && i.size == 2
    ensures EncState(RegularFile(1, 2, i)) ==
      Tagged(1, 1, 2, [2, 1, 0, 0] + ([254, 255, 255, 255, 255, 255, 255, 255] + (Eight(2) + [i.hash[0], i.hash[1]])))
  {
    hide ToLE;
    Ordered();
    SmallOnes(2);
    StateIsTagged(RegularFile(1, 2, i), 1, 1, 2);
    assert i.hash[..2] == [i.hash[0], i.hash[1]];
  }

  /** A larger one has its hash and its slot. */
  lemma {:induction false} LargeFileBytes(i: FileInfo)
    requires i.mode == 7 && i.mtime == 9 && i.size == 21
    ensures EncState(RegularFile(1, 2, i)) == Tagged(1, 1, 2, Four(7) + (Eight(9) + (Eight(21) + (i.hash + [i.slot]))))
  {
    hide ToLE;
    SmallOnes(7);
    SmallOnes(9);
    SmallOnes(21);
    StateIsTagged(RegularFile(1, 2, i), 1, 1, 2);
  }

  lemma {:induction false} OtherBytes()
    ensures EncState(NonExisting) == [0]
    ensures EncState(Symlink(1, 2, [47, 97])) == Tagged(2, 1, 2, Eight(2) + [47, 97])
    ensures EncState(Directory(1, 2, 7, 9)) == Tagged(3, 1, 2, Four(7) + Eight(9))
  {
    hide ToLE;
    SmallOnes(2);
    SmallOnes(7);
    SmallOnes(9);
    StateIsTagged(Symlink(1, 2, [47, 97]), 2, 1, 2);
    StateIsTagged(Directory(1, 2, 7, 9), 3, 1, 2);
  }

  lemma {:induction false} PolicyBytes()
    ensures PolicyCode(NoPolicy) == 0 && PolicyCode(Copy) == 1 && PolicyCode(Mirror) == 2 && PolicyCode(Track) == 3
    ensures PolicyOf(0) == NoPolicy && PolicyOf(1) == Copy && PolicyOf(2) == Mirror && PolicyOf(3) == Track
  {
  }

  // ----- a whole file -----

  /** The one point, which refers to the backup with the id 0. */
  lemma {:induction false} PointBytes(n: Node)
    requires n.history == [Point(Past(0), Symlink(1, 2, [98]))]
    ensures EncHistory(n.history, Ids(0, [0])) == Eight(1) + (Eight(0) + Tagged(2, 1, 2, Eight(1) + [98]))
  {
    hide ToLE;
    SmallOnes(0);
    SmallOnes(1);
    StateIsTagged(Symlink(1, 2, [98]), 2, 1, 2);
    var ids := Ids(0, [0]);
    assert EncPoints([], ids) == [];
    assert EncPoints(n.history, ids) == EncPoint(n.history[0], ids) + [] by { assert n.history[1..] == []; }
    assert EncPoint(n.history[0], ids) == Eight(0) + EncState(Symlink(1, 2, [98]));
    assert EncPoint(n.history[0], ids) + [] == EncPoint(n.history[0], ids);
  }

  lemma {:induction false} EmptyBytes(ids: Ids)
    ensures EncList([], ids) == Eight(0) && EncHistory([], ids) == Eight(0)
  {
    hide ToLE;
    SmallOnes(0);
    assert Eight(0) + [] == Eight(0);
  }

  /** A node: its name, its policy, its history and what is below it. */
  lemma {:induction false} NodeBytes(n: Node)
    requires n == Node([47, 97], NoHint, Track, [Point(Past(0), Symlink(1, 2, [98]))], [])
    ensures EncNode(n, Ids(0, [0])) == Eight(1) + ([97] + ([3] + (EncHistory(n.history, Ids(0, [0])) + Eight(0))))
  {
    hide ToLE, Split, EncHistory, EncList;
    SmallOnes(1);
    EmptyBytes(Ids(0, [0]));
    assert NameOf(n) == [97] by {
      assert [47, 97] == AppendPath([], [97]) && !HasSlash([97]);
      SplitAppend([], [97]);
    }
  }

  lemma {:induction false} OneNode(n: Node, ids: Ids)
    requires !Wiped(n)
    ensures EncList([n], ids) == Eight(1) + EncNode(n, ids)
  {
    hide ToLE, EncNode;
    SmallOnes(1);
    assert [n][1..] == [];
    assert LiveCount([]) == 0 && LiveCount([n]) == 1;
    assert EncNodes([], ids) == [] && EncNode(n, ids) + [] == EncNode(n, ids);
    assert EncNodes([n], ids) == EncNode(n, ids) + [];
  }

  /** The metadata of a repository with one backup, made at time 5, that knows the tracked symlink /a: the
      times, the history of the config, the number of paths, and the paths. */
  lemma {:induction false} FileBytes(n: Node)
    requires n == Node([47, 97], NoHint, Track, [Point(Past(0), Symlink(1, 2, [98]))], [])
    ensures EncImage(Image([5], [], 1, [n]), Ids(0, [0])) ==
      Eight(1) + (Eight(5) + (Eight(0) + (Eight(1) + (Eight(1)
        + (Eight(1) + ([97] + ([3] + ((Eight(1) + (Eight(0) + Tagged(2, 1, 2, Eight(1) + [98]))) + Eight(0)))))))))
  {
    hide ToLE, EncHistory, EncList, EncNode;
    SmallOnes(1);
    SmallOnes(5);
    EmptyBytes(Ids(0, [0]));
    PointBytes(n);
    NodeBytes(n);
    OneNode(n, Ids(0, [0]));
    assert EncTimes([5]) == Eight(5) by {
      assert [5][1..] == [];
      assert EncTimes([]) == [] && Eight(5) + [] == Eight(5);
    }
  }

  /** The names that are never collected. */
  lemma {:induction false} KeptNames()
    ensures Text("config") in Preserved([]) && Text("metadata") in Preserved([]) && Text("lockfile") in Preserved([])
  {
    assert Text("config") == CONFIG && Text("metadata") == METADATA && Text("lockfile") == LOCKFILE;
  }
}
