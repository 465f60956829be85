/** The entities of src/metadata.h, src/backup-policies.h and src/search-tree.h, and the file
    system entries they describe. */
module Metadata {
  import opened Data
  import opened Str

  datatype Policy = NoPolicy | Copy | Mirror | Track | Ignore | Summarize | Unknown(code: Byte)

  const FILE_HASH_SIZE: nat := 20

  /** A `uint8_t hash[FILE_HASH_SIZE]` array. */
  type Hash = h: Bytes | |h| == 20 witness Zeros(20)

  datatype FileInfo = FileInfo(mode: U32, mtime: I64, size: U64, hash: Hash, slot: Byte)

  datatype PathState =
    | NonExisting
    | RegularFile(uid: U32, gid: U32, info: FileInfo)
    | Symlink(uid: U32, gid: U32, target: Bytes)
    | Directory(uid: U32, gid: U32, mode: U32, mtime: I64)

  /** A `Backup *`: the backup being made, or an element of `backup_history`. */
  datatype BackupRef = Current | Past(index: nat)

  datatype Point = Point(backup: BackupRef, state: PathState)

  datatype Node = Node(path: Bytes, hint: Hint, policy: Policy, history: seq<Point>, subs: seq<Node>)

  // ----- backup hints -----

  datatype Kind =
    | Unchanged | Added | Removed | NotPartOfRepository
    | RegularToSymlink | RegularToDirectory | SymlinkToRegular
    | SymlinkToDirectory | DirectoryToRegular | DirectoryToSymlink
    | OtherToRegular | OtherToSymlink | OtherToDirectory

  /** The part of a hint below the policy bits: one exclusive value, or a set of change flags. */
  datatype Core =
    | Exclusive(kind: Kind)
    | Flags(owner: bool, permissions: bool, timestamp: bool, content: bool, freshHash: bool)

  datatype Hint = Hint(core: Core, policyChanged: bool, losesHistory: bool)

  const NoFlags: Core := Flags(false, false, false, false, false)
  const NoHint: Hint := Hint(NoFlags, false, false)

  datatype Flag = OwnerChanged | PermissionsChanged | TimestampChanged | ContentChanged | FreshHash

  /** backupHintSet() for the exclusive values. BH_unchanged also drops the policy bits. */
  function SetKind(h: Hint, k: Kind): Hint {
    if k.Unchanged? then Hint(Exclusive(k), false, false) else h.(core := Exclusive(k))
  }

  /** backupHintSet() for the change flags. */
  function SetFlag(h: Hint, f: Flag): Hint {
    var c := if h.core.Flags? then h.core else NoFlags;
    h.(core := match f
               case OwnerChanged => c.(owner := true)
               case PermissionsChanged => c.(permissions := true)
               case TimestampChanged => c.(timestamp := true)
               case ContentChanged => c.(content := true)
               case FreshHash => c.(freshHash := true))
  }

  predicate Has(h: Hint, f: Flag) {
    h.core.Flags? && match f
                     case OwnerChanged => h.core.owner
                     case PermissionsChanged => h.core.permissions
                     case TimestampChanged => h.core.timestamp
                     case ContentChanged => h.core.content
                     case FreshHash => h.core.freshHash
  }

  predicate IsKind(h: Hint, k: Kind) { h.core == Exclusive(k) }

  predicate Wiped(n: Node) { IsKind(n.hint, NotPartOfRepository) }

  // The bit patterns of the enum in src/metadata.h.

  function KindCode(k: Kind): bv16 {
    match k
    case Unchanged => 1
    case Added => 2
    case Removed => 3
    case NotPartOfRepository => 4
    case RegularToSymlink => 5
    case RegularToDirectory => 6
    case SymlinkToRegular => 7
    case SymlinkToDirectory => 8
    case DirectoryToRegular => 9
    case DirectoryToSymlink => 10
    case OtherToRegular => 11
    case OtherToSymlink => 12
    case OtherToDirectory => 13
  }

  function FlagCode(f: Flag): bv16 {
    match f
    case OwnerChanged => 0x10
    case PermissionsChanged => 0x20
    case TimestampChanged => 0x40
    case ContentChanged => 0x80
    case FreshHash => 0x100
  }

  function Bit(b: bool, v: bv16): bv16 { if b then v else 0 }

  function CoreCode(c: Core): bv16 {
    match c
    case Exclusive(k) => KindCode(k)
    case Flags(o, p, t, c, f) => Bit(o, 0x10) | Bit(p, 0x20) | Bit(t, 0x40) | Bit(c, 0x80) | Bit(f, 0x100)
  }

  function HintCode(h: Hint): bv16 {
    CoreCode(h.core) | Bit(h.policyChanged, 0x200) | Bit(h.losesHistory, 0x400)
  }

  /** The masks of the backupHintSet() macro. */
  function SetBits(v: bv16, hint: bv16): bv16 {
    if hint <= 1 then hint
    else if hint <= 13 then (v & !0x1FF) | hint
    else if hint <= 0x100 then (v & !0xF) | hint
    else v | hint
  }

  function NoPolBits(v: bv16): bv16 { v & 0x1FF }

  /** The low four bits hold the exclusive value, the next five the change flags. */
  lemma {:induction false} CoreLayout(c: Core)
    ensures CoreCode(c) & 0x1FF == CoreCode(c)
    ensures CoreCode(c) & !0xF == if c.Exclusive? then 0 else CoreCode(c)
  {
  }

  lemma {:induction false} PolicyBitsStay(c: bv16, p: bool, l: bool, v: bv16)
    requires c & 0x1FF == c
    ensures (((c | Bit(p, 0x200) | Bit(l, 0x400)) & !0xF) | v) == ((c & !0xF) | v) | Bit(p, 0x200) | Bit(l, 0x400)
    ensures (((c | Bit(p, 0x200) | Bit(l, 0x400)) & !0x1FF) | v) == v | Bit(p, 0x200) | Bit(l, 0x400)
  {
    if p { if l {} else {} } else { if l {} else {} }
  }

  /** Raising a flag in a flag set is one more bit. */
  lemma {:induction false} FlagIsOneBit(c: Core, f: Flag)
    requires c.Flags?
    ensures CoreCode(SetFlag(Hint(c, false, false), f).core) == CoreCode(c) | FlagCode(f)
  {
    match f
    case OwnerChanged => OwnerIsOneBit(c);
    case PermissionsChanged => PermissionsIsOneBit(c);
    case TimestampChanged => TimestampIsOneBit(c);
    case ContentChanged => ContentIsOneBit(c);
    case FreshHash => FreshIsOneBit(c);
  }

  lemma {:induction false} OwnerIsOneBit(c: Core)
    requires c.Flags?
    ensures CoreCode(SetFlag(Hint(c, false, false), OwnerChanged).core) == CoreCode(c) | FlagCode(OwnerChanged)
  {
    OneMoreBit(Bit(c.owner, 0x10), Bit(c.permissions, 0x20), Bit(c.timestamp, 0x40), Bit(c.content, 0x80), Bit(c.freshHash, 0x100));
  }

  lemma {:induction false} PermissionsIsOneBit(c: Core)
    requires c.Flags?
    ensures CoreCode(SetFlag(Hint(c, false, false), PermissionsChanged).core) == CoreCode(c) | FlagCode(PermissionsChanged)
  {
    OneMoreBit(Bit(c.owner, 0x10), Bit(c.permissions, 0x20), Bit(c.timestamp, 0x40), Bit(c.content, 0x80), Bit(c.freshHash, 0x100));
  }

  lemma {:induction false} TimestampIsOneBit(c: Core)
    requires c.Flags?
    ensures CoreCode(SetFlag(Hint(c, false, false), TimestampChanged).core) == CoreCode(c) | FlagCode(TimestampChanged)
  {
    OneMoreBit(Bit(c.owner, 0x10), Bit(c.permissions, 0x20), Bit(c.timestamp, 0x40), Bit(c.content, 0x80), Bit(c.freshHash, 0x100));
  }

  lemma {:induction false} ContentIsOneBit(c: Core)
    requires c.Flags?
    ensures CoreCode(SetFlag(Hint(c, false, false), ContentChanged).core) == CoreCode(c) | FlagCode(ContentChanged)
  {
    OneMoreBit(Bit(c.owner, 0x10), Bit(c.permissions, 0x20), Bit(c.timestamp, 0x40), Bit(c.content, 0x80), Bit(c.freshHash, 0x100));
  }

  lemma {:induction false} FreshIsOneBit(c: Core)
    requires c.Flags?
    ensures CoreCode(SetFlag(Hint(c, false, false), FreshHash).core) == CoreCode(c) | FlagCode(FreshHash)
  {
    OneMoreBit(Bit(c.owner, 0x10), Bit(c.permissions, 0x20), Bit(c.timestamp, 0x40), Bit(c.content, 0x80), Bit(c.freshHash, 0x100));
  }

  lemma {:induction false} OneMoreBit(o: bv16, p: bv16, t: bv16, n: bv16, r: bv16)
    requires o == 0 || o == 0x10
    requires p == 0 || p == 0x20
    requires t == 0 || t == 0x40
    requires n == 0 || n == 0x80
    requires r == 0 || r == 0x100
    ensures (o | p | t | n | r) | 0x10 == 0x10 | p | t | n | r
    ensures (o | p | t | n | r) | 0x20 == o | 0x20 | t | n | r
    ensures (o | p | t | n | r) | 0x40 == o | p | 0x40 | n | r
    ensures (o | p | t | n | r) | 0x80 == o | p | t | 0x80 | r
    ensures (o | p | t | n | r) | 0x100 == o | p | t | n | 0x100
  {
  }

  /** The mask macros compute exactly the operations on the structured hint, and no operation
      ever mixes an exclusive value with a change flag. */
  lemma {:induction false} SetKindIsMask(h: Hint, k: Kind)
    ensures HintCode(SetKind(h, k)) == SetBits(HintCode(h), KindCode(k))
  {
    CoreLayout(h.core);
    PolicyBitsStay(CoreCode(h.core), h.policyChanged, h.losesHistory, KindCode(k));
  }

  lemma {:induction false} FlagMask(v: bv16, f: Flag)
    ensures SetBits(v, FlagCode(f)) == (v & !0xF) | FlagCode(f)
  {
  }

  lemma {:induction false} SetFlagIsMask(h: Hint, f: Flag)
    ensures HintCode(SetFlag(h, f)) == SetBits(HintCode(h), FlagCode(f))
  {
    var c := if h.core.Flags? then h.core else NoFlags;
    assert CoreCode(NoFlags) == 0;
    CoreLayout(h.core);
    FlagMask(HintCode(h), f);
    PolicyBitsStay(CoreCode(h.core), h.policyChanged, h.losesHistory, FlagCode(f));
    FlagIsOneBit(c, f);
    assert SetFlag(h, f) == h.(core := SetFlag(Hint(c, false, false), f).core);
  }

  lemma {:induction false} PolicyChangedIsMask(h: Hint)
    ensures HintCode(h.(policyChanged := true)) == SetBits(HintCode(h), 0x200)
  {
    PolicyMask(HintCode(h));
    PolicyBitsOr(CoreCode(h.core), h.policyChanged, h.losesHistory);
  }

  lemma {:induction false} LosesHistoryIsMask(h: Hint)
    ensures HintCode(h.(losesHistory := true)) == SetBits(HintCode(h), 0x400)
  {
    PolicyMask(HintCode(h));
    PolicyBitsOr(CoreCode(h.core), h.policyChanged, h.losesHistory);
  }

  lemma {:induction false} PolicyMask(v: bv16)
    ensures SetBits(v, 0x200) == v | 0x200
    ensures SetBits(v, 0x400) == v | 0x400
  {
  }

  lemma {:induction false} PolicyBitsOr(c: bv16, p: bool, l: bool)
    ensures (c | Bit(p, 0x200) | Bit(l, 0x400)) | 0x200 == c | Bit(true, 0x200) | Bit(l, 0x400)
    ensures (c | Bit(p, 0x200) | Bit(l, 0x400)) | 0x400 == c | Bit(p, 0x200) | Bit(true, 0x400)
  {
    if p { if l {} else {} } else { if l {} else {} }
  }

  lemma {:induction false} CodeIsInjective(g: Hint, h: Hint)
    requires HintCode(g) == HintCode(h)
    ensures g == h
  {
    assert HintCode(g) & 0x200 == Bit(g.policyChanged, 0x200);
    assert HintCode(h) & 0x200 == Bit(h.policyChanged, 0x200);
    assert HintCode(g) & 0x400 == Bit(g.losesHistory, 0x400);
    assert HintCode(h) & 0x400 == Bit(h.losesHistory, 0x400);
    assert NoPolBits(HintCode(g)) == CoreCode(g.core);
    assert NoPolBits(HintCode(h)) == CoreCode(h.core);
    CoreCodeInjective(g.core, h.core);
  }

  lemma {:induction false} CoreCodeInjective(c: Core, d: Core)
    requires CoreCode(c) == CoreCode(d)
    ensures c == d
  {
    var v := CoreCode(c);
    if c.Flags? {
      assert v & 0xF == 0;
    }
    if d.Flags? {
      assert v & 0xF == 0;
    }
    if c.Flags? && d.Flags? {
      assert v & 0x10 == Bit(c.owner, 0x10) == Bit(d.owner, 0x10);
      assert v & 0x20 == Bit(c.permissions, 0x20) == Bit(d.permissions, 0x20);
      assert v & 0x40 == Bit(c.timestamp, 0x40) == Bit(d.timestamp, 0x40);
      assert v & 0x80 == Bit(c.content, 0x80) == Bit(d.content, 0x80);
      assert v & 0x100 == Bit(c.freshHash, 0x100) == Bit(d.freshHash, 0x100);
    }
  }

  // ----- what a traversal sees -----

  type Content = c: Bytes | |c| <= SIZE_MAX

  /** One file system entry with everything lstat(), readlink() and read() report about it. */
  datatype Entry =
    | File(uid: U32, gid: U32, mode: U32, mtime: I64, content: Content)
    | Link(uid: U32, gid: U32, target: Bytes)
    | Dir(uid: U32, gid: U32, mode: U32, mtime: I64)
    | Other

  /** A node of the config search tree. */
  datatype SearchNode = SearchNode(pattern: Pattern, policy: Policy, subnodes: seq<SearchNode>)

  datatype Pattern = Literal(name: Bytes) | Regex(expression: Bytes)

  /** One search result with the results found inside it, if it is a directory. */
  datatype Found = Found(path: Bytes, entry: Entry, policy: Policy, node: Option<SearchNode>, children: seq<Found>)

  /** The regular expression engine, the file hash and the ignore expressions in effect. */
  datatype Env = Env(matches: (Bytes, Bytes) -> bool, digest: Bytes -> Hash, ignore: seq<Bytes>)
}
