/** Byte encoding of stored nodes (internal/state/mpt/trie.go encode*, database.go decode*). */
module NodeCodec {
  import opened Wrappers
  import opened Nibbles
  import opened TrieNode

  /** binary.BigEndian.PutUint16 of uint16(n): high bits are dropped. */
  function U16(n: nat): (b: Bytes)
    ensures |b| == 2
  {
    [n / 256 % 256, n % 256]
  }

  /** binary.BigEndian.PutUint32 of uint32(n): high bits are dropped. */
  function U32(n: nat): (b: Bytes)
    ensures |b| == 4
  {
    U16(n / 65536) + U16(n)
  }

  /** binary.BigEndian.Uint16 and Uint32. */
  function BigEndian(b: Bytes): nat {
    if b == [] then 0 else BigEndian(b[..|b| - 1]) * 256 + b[|b| - 1]
  }

  lemma BigEndianPair(b: Bytes, x: byte, y: byte)
    ensures BigEndian(b + [x, y]) == BigEndian(b) * 65536 + x * 256 + y
  {
    var c := b + [x, y];
    var front := c[..|c| - 1];
    assert front == b + [x] && front[..|front| - 1] == b;
    assert BigEndian(front) == BigEndian(b) * 256 + x;
  }

  lemma Low16(n: nat, high: nat, low: nat)
    requires n == high * 65536 + low && low < 65536
    ensures n % 65536 == low
  {
  }

  lemma Low32(n: nat, high: nat, low: nat)
    requires n == high * 0x1_0000_0000 + low && low < 0x1_0000_0000
    ensures n % 0x1_0000_0000 == low
  {
  }

  lemma ByByte(n: nat)
    ensures n == n / 256 * 256 + n % 256
  {
  }

  lemma ByWord(n: nat)
    ensures n == n / 65536 * 65536 + n % 65536
  {
  }

  lemma TwoBytes(n: nat)
    ensures n % 65536 == n / 256 % 256 * 256 + n % 256
  {
    var high := n / 256;
    ByByte(n);
    ByByte(high);
    Low16(n, high / 256, high % 256 * 256 + n % 256);
  }

  lemma FourBytes(n: nat)
    ensures n % 0x1_0000_0000 == n / 65536 % 65536 * 65536 + n % 65536
  {
    var high := n / 65536;
    ByWord(n);
    ByWord(high);
    Low32(n, high / 65536, high % 65536 * 65536 + n % 65536);
  }

  lemma U16RoundTrip(n: nat)
    ensures BigEndian(U16(n)) == n % 65536
  {
    BigEndianPair([], n / 256 % 256, n % 256);
    assert [] + [n / 256 % 256, n % 256] == U16(n);
    TwoBytes(n);
  }

  lemma U32RoundTrip(n: nat)
    ensures BigEndian(U32(n)) == n % 0x1_0000_0000
  {
    U16RoundTrip(n / 65536);
    BigEndianPair(U16(n / 65536), n / 256 % 256, n % 256);
    assert U32(n) == U16(n / 65536) + [n / 256 % 256, n % 256];
    TwoBytes(n);
    FourBytes(n);
  }

  /** A nibble path written byte by byte. */
  function FromNibbles(path: Path): Bytes {
    path
  }

  /** Reading path bytes back; a byte above 15 is not a nibble. */
  function ToNibbles(b: Bytes): Option<Path> {
    if forall i :: 0 <= i < |b| ==> b[i] < 16 then Some(b) else None
  }

  /** The bytes of a value; nil is written as an empty value. */
  function ValueBytes(v: Value): Bytes {
    if v.Some? then v.value else []
  }

  function EncodeLeaf(suffix: Path, value: Value): Bytes {
    [1] + U16(|suffix|) + FromNibbles(suffix) + U32(|ValueBytes(value)|) + ValueBytes(value)
  }

  function EncodeExt(prefix: Path, child: Hash): Bytes {
    [2] + U16(|prefix|) + FromNibbles(prefix) + child
  }

  /** Child hashes side by side. */
  function Join(hashes: seq<Hash>): (b: Bytes)
    ensures |b| == 32 * |hashes|
  {
    if hashes == [] then [] else hashes[0] + Join(hashes[1..])
  }

  function EncodeBranch(value: Value, hashes: seq<Hash>): Bytes {
    [3] + (if value.Some? then [1] + U32(|value.value|) + value.value else [0]) + Join(hashes)
  }

  lemma {:induction false} JoinAt(hashes: seq<Hash>, i: nat)
    requires i < |hashes|
    ensures Join(hashes)[32 * i..32 * (i + 1)] == hashes[i]
  {
    if i > 0 {
      JoinAt(hashes[1..], i - 1);
      assert Join(hashes)[32 * i..32 * (i + 1)] == Join(hashes[1..])[32 * (i - 1)..32 * i];
    }
  }

  function DecodeLeaf(data: Bytes): Option<Node> {
    if |data| < 6 then None
    else
      var keyLen := BigEndian(data[..2]);
      var rest := data[2..];
      if |rest| < keyLen + 4 then None
      else
        var key := ToNibbles(rest[..keyLen]);
        var tail := rest[keyLen..];
        var valLen := BigEndian(tail[..4]);
        var value := tail[4..];
        if |value| < valLen || key.None? then None
        else Some(Leaf(key.value, Some(value[..valLen]), LOADED))
  }

  function DecodeExt(data: Bytes): Option<Node> {
    if |data| < 6 then None
    else
      var pfxLen := BigEndian(data[..2]);
      var rest := data[2..];
      if |rest| < pfxLen + 32 then None
      else
        var prefix := ToNibbles(rest[..pfxLen]);
        if prefix.None? then None
        else Some(Ext(prefix.value, Ref(rest[pfxLen..][..32]), LOADED))
  }

  /** A zero hash decodes to an unset child. */
  function Child(h: Hash): Node {
    if h == EMPTY_HASH then Nil else Ref(h)
  }

  /** The sixteen child slots, read from a table of at least 512 bytes. */
  function DecodeChildren(table: Bytes): (c: seq<Node>)
    requires |table| >= 16 * 32
    ensures |c| == 16
  {
    seq(16, i requires 0 <= i < 16 => Child(table[i * 32..(i + 1) * 32]))
  }

  function DecodeBranchTail(value: Value, table: Bytes): Option<Node> {
    if |table| < 16 * 32 then None else Some(Branch(DecodeChildren(table), value, LOADED))
  }

  function DecodeBranch(data: Bytes): Option<Node> {
    if |data| < 2 then None
    else if data[0] != 1 then DecodeBranchTail(None, data[1..])
    else if |data| < 5 then None
    else
      var valLen := BigEndian(data[1..5]);
      var rest := data[5..];
      if |rest| < valLen then None else DecodeBranchTail(Some(rest[..valLen]), rest[valLen..])
  }

  function Decode(blob: Bytes): Option<Node> {
    if blob == [] || blob[0] == 0 then Some(Nil)
    else if blob[0] == 1 then DecodeLeaf(blob[1..])
    else if blob[0] == 2 then DecodeExt(blob[1..])
    else if blob[0] == 3 then DecodeBranch(blob[1..])
    else None
  }

  lemma DropHead(a: Bytes, b: Bytes)
    requires a != []
    ensures (a + b)[1..] == a[1..] + b
  {
  }

  lemma LeafBlob(blob: Bytes, keyLen: Bytes, suffix: Path, valLen: Bytes, v: Bytes)
    requires blob == [1] + keyLen + FromNibbles(suffix) + valLen + v
    requires |keyLen| == 2 && BigEndian(keyLen) == |suffix|
    requires |valLen| == 4 && BigEndian(valLen) == |v|
    ensures Decode(blob) == Some(Leaf(suffix, Some(v), LOADED))
  {
    DecodeLeafOf(keyLen, suffix, valLen, v);
    DropHead([1], keyLen);
    DropHead([1] + keyLen, FromNibbles(suffix));
    DropHead([1] + keyLen + FromNibbles(suffix), valLen);
    DropHead([1] + keyLen + FromNibbles(suffix) + valLen, v);
  }

  lemma BranchParts(data: Bytes, valLen: Bytes, v: Bytes, table: Bytes)
    requires data == [1] + (valLen + (v + table)) && |valLen| == 4
    ensures |data| >= 5 && data[0] == 1 && data[1..5] == valLen
    ensures data[5..][..|v|] == v && data[5..][|v|..] == table
  {
    assert data[5..] == v + table;
  }

  lemma BranchBlob(blob: Bytes, valLen: Bytes, v: Bytes, table: Bytes)
    requires blob == [3, 1] + valLen + v + table && |table| == 16 * 32
    requires |valLen| == 4 && BigEndian(valLen) == |v|
    ensures Decode(blob) == Some(Branch(DecodeChildren(table), Some(v), LOADED))
  {
    assert blob[1..] == [1] + (valLen + (v + table));
    BranchParts(blob[1..], valLen, v, table);
    BranchTail(blob[1..], BigEndian(valLen), Some(v), table);
  }

  lemma BranchTail(data: Bytes, valLen: nat, value: Value, table: Bytes)
    requires |data| >= 5 && data[0] == 1 && BigEndian(data[1..5]) == valLen <= |data[5..]|
    requires value == Some(data[5..][..valLen]) && table == data[5..][valLen..] && |table| == 16 * 32
    ensures DecodeBranch(data) == Some(Branch(DecodeChildren(table), value, LOADED))
  {
  }

  lemma DecodeLeafOf(keyLen: Bytes, suffix: Path, valLen: Bytes, v: Bytes)
    requires |keyLen| == 2 && BigEndian(keyLen) == |suffix|
    requires |valLen| == 4 && BigEndian(valLen) == |v|
    ensures DecodeLeaf(keyLen + FromNibbles(suffix) + valLen + v) == Some(Leaf(suffix, Some(v), LOADED))
  {
    var data := keyLen + FromNibbles(suffix) + valLen + v;
    var rest := data[2..];
    assert data[..2] == keyLen && rest == FromNibbles(suffix) + valLen + v;
    var tail := rest[|suffix|..];
    assert rest[..|suffix|] == suffix && tail == valLen + v;
    assert tail[..4] == valLen && tail[4..] == v && v[..|v|] == v;
  }

  lemma LeafFits(suffix: Path, value: Value)
    requires |suffix| < 0x1_0000 && |ValueBytes(value)| < 0x1_0000_0000
    ensures Decode(EncodeLeaf(suffix, value)) == Some(Leaf(suffix, Some(ValueBytes(value)), LOADED))
  {
    var v := ValueBytes(value);
    U16RoundTrip(|suffix|);
    U32RoundTrip(|v|);
    LeafBlob(EncodeLeaf(suffix, value), U16(|suffix|), suffix, U32(|v|), v);
  }

  /** A length field of two or four bytes holds the low bytes of the length, the high one first. */
  ghost predicate Field(b: Bytes, at: nat, width: nat, length: nat) {
    && at + width <= |b|
    && (width == 2 ==> length % 0x1_0000 == (b[at] as int) * 0x100 + b[at + 1])
    && (width == 4 ==>
          length % 0x1_0000_0000
          == (b[at] as int) * 0x100_0000 + (b[at + 1] as int) * 0x1_0000 + (b[at + 2] as int) * 0x100 + b[at + 3])
  }

  lemma U16Field(n: nat)
    ensures Field(U16(n), 0, 2, n)
  {
    TwoBytes(n);
  }

  lemma U32Field(n: nat)
    ensures Field(U32(n), 0, 4, n)
  {
    TwoBytes(n);
    TwoBytes(n / 65536);
    FourBytes(n);
  }

  /** Where the parts of a leaf blob are. */
  lemma LeafLayout(suffix: Path, value: Value)
    ensures var e, n, v := EncodeLeaf(suffix, value), |suffix|, if value.Some? then value.value else [];
            && |e| == 7 + n + |v| && e[0] == 1 && Field(e, 1, 2, n) && e[3..3 + n] == suffix
            && Field(e, 3 + n, 4, |v|) && e[7 + n..] == v
  {
    U16Field(|suffix|);
    U32Field(|ValueBytes(value)|);
  }

  /** Where the parts of an extension blob are. */
  lemma ExtLayout(prefix: Path, child: Hash)
    ensures var e, n := EncodeExt(prefix, child), |prefix|;
            && |e| == 35 + n && e[0] == 2 && Field(e, 1, 2, n) && e[3..3 + n] == prefix && e[3 + n..] == child
  {
    U16Field(|prefix|);
  }

  /** Where the parts of a branch blob are: a flag for the value, the value if it has one, and the children's hashes. */
  lemma BranchLayout(value: Value, hashes: seq<Hash>, i: nat)
    requires i < |hashes|
    ensures var e, at := EncodeBranch(value, hashes), if value.Some? then 6 + |value.value| else 2;
            && |e| == at + 32 * |hashes| && e[0] == 3
            && (value.None? ==> e[1] == 0)
            && (value.Some? ==> e[1] == 1 && Field(e, 2, 4, |value.value|) && e[6..at] == value.value)
            && e[at + 32 * i..at + 32 * (i + 1)] == hashes[i]
  {
    var head := [3] + (if value.Some? then [1] + U32(|value.value|) + value.value else [0]);
    if value.Some? {
      U32Field(|value.value|);
    }
    JoinAt(hashes, i);
    JoinSlice(head, Join(hashes), 32 * i, 32 * (i + 1));
  }

  lemma JoinSlice(head: Bytes, table: Bytes, from: nat, to: nat)
    requires from <= to <= |table|
    ensures (head + table)[|head| + from..|head| + to] == table[from..to]
  {
  }

  /** What a leaf blob decodes to has the lengths that its length fields say. */
  lemma LeafLengths(data: Bytes)
    requires DecodeLeaf(data).Some?
    ensures |data| >= 2 && |DecodeLeaf(data).value.suffix| == BigEndian(data[..2])
    ensures var tail := data[2..][BigEndian(data[..2])..];
            |tail| >= 4 && |DecodeLeaf(data).value.value.value| == BigEndian(tail[..4])
  {
  }

  /** Decoding a leaf blob gives back the leaf, a nil value read as an empty one, exactly when both lengths fit. */
  lemma LeafRoundTrip(suffix: Path, value: Value)
    ensures Decode(EncodeLeaf(suffix, value)) == Some(Leaf(suffix, Some(ValueBytes(value)), LOADED))
            <==> |suffix| < 0x1_0000 && |ValueBytes(value)| < 0x1_0000_0000
  {
    var v, blob := ValueBytes(value), EncodeLeaf(suffix, value);
    if |suffix| < 0x1_0000 && |v| < 0x1_0000_0000 {
      LeafFits(suffix, value);
    } else if Decode(blob) == Some(Leaf(suffix, Some(v), LOADED)) {
      LeafLengths(blob[1..]);
      U16RoundTrip(|suffix|);
      U32RoundTrip(|v|);
      LeafFields(blob, U16(|suffix|), suffix, U32(|v|), v);
    }
  }

  lemma LeafFields(blob: Bytes, keyLen: Bytes, suffix: Path, valLen: Bytes, v: Bytes)
    requires blob == [1] + keyLen + FromNibbles(suffix) + valLen + v && |keyLen| == 2 && |valLen| == 4
    ensures blob[1..][..2] == keyLen && blob[1..][2..][|suffix|..][..4] == valLen
  {
  }

  lemma ExtFits(prefix: Path, child: Hash)
    requires |prefix| < 0x1_0000
    ensures Decode(EncodeExt(prefix, child)) == Some(Ext(prefix, Ref(child), LOADED))
  {
    U16RoundTrip(|prefix|);
    var data := EncodeExt(prefix, child)[1..];
    assert data == U16(|prefix|) + (FromNibbles(prefix) + child);
    var rest := data[2..];
    assert data[..2] == U16(|prefix|) && rest == FromNibbles(prefix) + child;
    assert rest[..|prefix|] == prefix && rest[|prefix|..] == child && child[..32] == child;
  }

  /** Decoding an extension blob gives back prefix and reference, exactly when the length fits. */
  lemma ExtRoundTrip(prefix: Path, child: Hash)
    ensures Decode(EncodeExt(prefix, child)) == Some(Ext(prefix, Ref(child), LOADED)) <==> |prefix| < 0x1_0000
  {
    if |prefix| < 0x1_0000 {
      ExtFits(prefix, child);
    } else {
      U16RoundTrip(|prefix|);
      var data := EncodeExt(prefix, child)[1..];
      assert data == U16(|prefix|) + (FromNibbles(prefix) + child);
      assert data[..2] == U16(|prefix|);
    }
  }

  /** The children a branch blob decodes to. */
  function Children(hashes: seq<Hash>): (c: seq<Node>)
    ensures |c| == |hashes|
  {
    seq(|hashes|, i requires 0 <= i < |hashes| => Child(hashes[i]))
  }

  lemma ChildrenRoundTrip(hashes: seq<Hash>)
    requires |hashes| == 16
    ensures DecodeChildren(Join(hashes)) == Children(hashes)
  {
    forall i | 0 <= i < 16 ensures DecodeChildren(Join(hashes))[i] == Children(hashes)[i] {
      SlotRoundTrip(hashes, i);
    }
  }

  lemma SlotRoundTrip(hashes: seq<Hash>, i: nat)
    requires |hashes| == 16 && i < 16
    ensures DecodeChildren(Join(hashes))[i] == Child(hashes[i])
  {
    JoinAt(hashes, i);
    assert i * 32 == 32 * i && (i + 1) * 32 == 32 * (i + 1);
  }

  lemma BranchFits(value: Value, hashes: seq<Hash>)
    requires |hashes| == 16 && |ValueBytes(value)| < 0x1_0000_0000
    ensures Decode(EncodeBranch(value, hashes)) == Some(Branch(Children(hashes), value, LOADED))
  {
    ChildrenRoundTrip(hashes);
    var blob := EncodeBranch(value, hashes);
    if value.Some? {
      U32RoundTrip(|value.value|);
      BranchBlob(blob, U32(|value.value|), value.value, Join(hashes));
    } else {
      assert blob[1..] == [0] + Join(hashes) && blob[1..][1..] == Join(hashes);
    }
  }

  /** Decoding a branch blob gives back value and children, exactly when the value's length fits. */
  lemma BranchRoundTrip(value: Value, hashes: seq<Hash>)
    requires |hashes| == 16
    ensures Decode(EncodeBranch(value, hashes)) == Some(Branch(Children(hashes), value, LOADED))
            <==> |ValueBytes(value)| < 0x1_0000_0000
  {
    if |ValueBytes(value)| < 0x1_0000_0000 {
      BranchFits(value, hashes);
    } else {
      BranchLength(EncodeBranch(value, hashes), U32(|value.value|), value.value + Join(hashes));
      U32RoundTrip(|value.value|);
      assert EncodeBranch(value, hashes) == [3, 1] + U32(|value.value|) + (value.value + Join(hashes));
    }
  }

  /** The value of a decoded branch has the length that its length field says. */
  lemma BranchLength(blob: Bytes, valLen: Bytes, rest: Bytes)
    requires |valLen| == 4
    ensures blob == [3, 1] + valLen + rest && Decode(blob).Some?
            ==> Decode(blob).value.value.Some? && |Decode(blob).value.value.value| == BigEndian(valLen)
  {
    if blob == [3, 1] + valLen + rest {
      assert blob[1..][1..5] == valLen;
    }
  }
}
