/**
 * Account records and their trie encoding (internal/types/account.go,
 * internal/state/account/statedb.go:372-477).
 */
module AccountCodec {
  import opened Wrappers
  import opened Nibbles
  import opened TrieNode
  import opened BigInt

  const UINT64: nat := 0x1_0000_0000_0000_0000

  type uint64 = n: nat | n < UINT64

  datatype Account = Account(nonce: uint64, apt: nat, npt: nat, codeHash: Hash, storageRoot: Hash)

  /** What decodeAccount fills in; None is a TokenAmount whose big.Int is nil. */
  datatype Record = Record(nonce: uint64, apt: Option<nat>, npt: Option<nat>, codeHash: Hash, storageRoot: Hash)

  lemma Power256Of(k: nat)
    ensures k == 4 ==> Power256(k) == 0x1_0000_0000
    ensures k == 8 ==> Power256(k) == UINT64
  {
    assert Power256(4) == 256 * Power256(3) == 256 * 256 * Power256(2);
    assert Power256(8) == 256 * Power256(7) == 256 * 256 * Power256(6) == 256 * 256 * 256 * Power256(5);
  }

  /** One amount: a four-byte length, then the bytes. */
  function EncodeAmount(n: nat): Bytes {
    Fixed(|ToBytes(n)|, 4) + ToBytes(n)
  }

  function Encode(a: Account): Bytes {
    Fixed(a.nonce, 8) + EncodeAmount(a.apt) + EncodeAmount(a.npt) + a.codeHash + a.storageRoot
  }

  /** An amount read from the front of the data, and the data after it. */
  function DecodeAmount(data: Bytes): Result<(Option<nat>, Bytes), string> {
    if |data| < 4 then Err("account data truncated at length")
    else
      var length := FromBytes(data[..4]);
      var rest := data[4..];
      if |rest| < length then Err("account data truncated at value")
      else Ok((if length > 0 then Some(FromBytes(rest[..length])) else None, rest[length..]))
  }

  function Decode(data: Bytes): Result<Record, string> {
    if |data| < 16 then Err("account data too short")
    else
      var nonce := FromBytes(data[..8]) % UINT64;
      var apt := DecodeAmount(data[8..]);
      if apt.Err? then Err(apt.error)
      else
        var npt := DecodeAmount(apt.value.1);
        if npt.Err? then Err(npt.error)
        else
          var tail := npt.value.1;
          if |tail| < 32 then Err("account data truncated at code hash")
          else if |tail| < 64 then Err("account data truncated at storage root")
          else Ok(Record(nonce, apt.value.0, npt.value.0, tail[..32], tail[32..64]))
  }

  /** A zero amount is written with length zero and read back as nil. */
  function Reread(n: nat): Option<nat> {
    if n == 0 then None else Some(n)
  }

  /** Amounts whose byte length fits the four-byte length field. */
  predicate Writable(n: nat) {
    |ToBytes(n)| < 0x1_0000_0000
  }

  lemma AmountRoundTrip(n: nat, rest: Bytes)
    requires Writable(n)
    ensures DecodeAmount(EncodeAmount(n) + rest) == Ok((Reread(n), rest))
  {
    var data := EncodeAmount(n) + rest;
    var b := ToBytes(n);
    Power256Of(4);
    FixedFits(|b|, 4);
    RoundTrip(n);
    assert data[..4] == Fixed(|b|, 4) && data[4..] == b + rest;
    assert (b + rest)[..|b|] == b && (b + rest)[|b|..] == rest;
  }

  lemma Regroup(data: Bytes, n: Bytes, a: Bytes, b: Bytes, c: Bytes, d: Bytes)
    requires data == n + a + b + c + d
    ensures |data| == |n| + |a| + |b| + |c| + |d|
    ensures data[..|n|] == n && data[|n|..] == a + (b + (c + d))
    ensures (c + d)[..|c|] == c && (c + d)[|c|..] == d
  {
  }

  lemma DecodeOf(data: Bytes, r: Record, more: Bytes, rest: Bytes, tail: Bytes)
    requires |data| >= 16 && FromBytes(data[..8]) == r.nonce && data[8..] == more
    requires DecodeAmount(more) == Ok((r.apt, rest)) && DecodeAmount(rest) == Ok((r.npt, tail))
    requires |tail| == 64 && tail[..32] == r.codeHash && tail[32..] == r.storageRoot
    ensures Decode(data) == Ok(r)
  {
    assert tail[32..64] == tail[32..];
  }

  lemma Chain(data: Bytes, r: Record, n: Bytes, x: Bytes, y: Bytes)
    requires data == n + x + y + r.codeHash + r.storageRoot && FromBytes(n) == r.nonce
    requires |n| == 8 && |x| >= 4 && |y| >= 4
    requires var tail := r.codeHash + r.storageRoot;
             DecodeAmount(x + (y + tail)) == Ok((r.apt, y + tail)) && DecodeAmount(y + tail) == Ok((r.npt, tail))
    ensures Decode(data) == Ok(r)
  {
    Regroup(data, n, x, y, r.codeHash, r.storageRoot);
    var tail := r.codeHash + r.storageRoot;
    DecodeOf(data, r, x + (y + tail), y + tail, tail);
  }

  lemma NonceRoundTrip(nonce: uint64)
    ensures FromBytes(Fixed(nonce, 8)) == nonce
  {
    Power256Of(8);
    FixedFits(nonce, 8);
  }

  /** decodeAccount undoes encodeAccount, except that a zero amount comes back nil. */
  lemma AccountRoundTrip(a: Account)
    requires Writable(a.apt) && Writable(a.npt)
    ensures Decode(Encode(a)) == Ok(Record(a.nonce, Reread(a.apt), Reread(a.npt), a.codeHash, a.storageRoot))
  {
    NonceRoundTrip(a.nonce);
    var tail := a.codeHash + a.storageRoot;
    AmountRoundTrip(a.apt, EncodeAmount(a.npt) + tail);
    AmountRoundTrip(a.npt, tail);
    var r := Record(a.nonce, Reread(a.apt), Reread(a.npt), a.codeHash, a.storageRoot);
    Chain(Encode(a), r, Fixed(a.nonce, 8), EncodeAmount(a.apt), EncodeAmount(a.npt));
  }

  /** Outcome of loading an account from the trie. */
  datatype Loaded = Missing | Broken(error: string) | Panic | Found(account: Account)

  /**
   * getStateObject's load: newStateObject copies the decoded account, and the
   * copy dereferences both amounts, so a nil one is a nil-pointer panic.
   */
  function Load(data: Option<Bytes>): Loaded {
    if data.None? then Missing
    else
      var r := Decode(data.value);
      if r.Err? then Broken(r.error)
      else if r.value.apt.None? || r.value.npt.None? then Panic
      else Found(Account(r.value.nonce, r.value.apt.value, r.value.npt.value, r.value.codeHash, r.value.storageRoot))
  }

  /** A stored account loads back exactly when neither balance is zero. */
  lemma LoadEncoded(a: Account)
    requires Writable(a.apt) && Writable(a.npt)
    ensures Load(Some(Encode(a))) == if a.apt > 0 && a.npt > 0 then Found(a) else Panic
  {
    AccountRoundTrip(a);
  }

  /** The nonce, each amount after its length x or y, the two hashes. */
  ghost predicate HasLayout(e: Bytes, a: Account, x: nat, y: nat) {
    && |e| == 80 + x + y && FromBytes(e[..8]) == a.nonce
    && FromBytes(e[8..12]) == x && FromBytes(e[12..12 + x]) == a.apt
    && FromBytes(e[12 + x..16 + x]) == y && FromBytes(e[16 + x..16 + x + y]) == a.npt
    && e[16 + x + y..48 + x + y] == a.codeHash && e[48 + x + y..] == a.storageRoot
  }

  /** Where the parts of a stored account are. */
  lemma AccountLayout(a: Account)
    requires Writable(a.apt) && Writable(a.npt)
    ensures exists x, y :: HasLayout(Encode(a), a, x, y)
  {
    NonceRoundTrip(a.nonce);
    LengthField(|ToBytes(a.apt)|);
    LengthField(|ToBytes(a.npt)|);
    RoundTrip(a.apt);
    RoundTrip(a.npt);
    Placed(Encode(a), Fixed(a.nonce, 8), Fixed(|ToBytes(a.apt)|, 4), ToBytes(a.apt), Fixed(|ToBytes(a.npt)|, 4),
           ToBytes(a.npt), a, |ToBytes(a.apt)|, |ToBytes(a.npt)|);
  }

  lemma LengthField(n: nat)
    requires n < 0x1_0000_0000
    ensures FromBytes(Fixed(n, 4)) == n
  {
    Power256Of(4);
    FixedFits(n, 4);
  }

  lemma Placed(e: Bytes, n: Bytes, l: Bytes, p: Bytes, k: Bytes, q: Bytes, a: Account, x: nat, y: nat)
    requires e == n + (l + p) + (k + q) + a.codeHash + a.storageRoot && |n| == 8 && |l| == 4 && |k| == 4
    requires FromBytes(n) == a.nonce && FromBytes(l) == x == |p| && FromBytes(p) == a.apt
    requires FromBytes(k) == y == |q| && FromBytes(q) == a.npt
    ensures HasLayout(e, a, x, y)
  {
    Parts(e, n, l, p, k, q, a.codeHash, a.storageRoot);
  }

  lemma Parts(e: Bytes, n: Bytes, l: Bytes, p: Bytes, k: Bytes, q: Bytes, c: Bytes, d: Bytes)
    requires e == n + (l + p) + (k + q) + c + d && |n| == 8 && |l| == 4 && |k| == 4 && |c| == 32 && |d| == 32
    ensures |e| == 80 + |p| + |q| && e[..8] == n && e[8..12] == l && e[12..12 + |p|] == p
    ensures e[12 + |p|..16 + |p|] == k && e[16 + |p|..16 + |p| + |q|] == q
    ensures e[16 + |p| + |q|..48 + |p| + |q|] == c && e[48 + |p| + |q|..] == d
  {
  }
}
