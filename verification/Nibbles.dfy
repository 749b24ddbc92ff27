/** Key paths of the Merkle-Patricia trie (internal/state/mpt/encoding.go). */
module Nibbles {

  type byte = b: int | 0 <= b < 256
  type nibble = b: int | 0 <= b < 16

  type Bytes = seq<byte>
  type Path = seq<nibble>

  /** Each byte becomes its high nibble followed by its low nibble. */
  function ToPath(key: Bytes): (path: Path)
    ensures |path| == 2 * |key|
  {
    if key == [] then [] else [key[0] / 16, key[0] % 16] + ToPath(key[1..])
  }

  function Pack(high: int, low: int): (b: int)
    requires 0 <= high < 16 && 0 <= low < 16
    ensures 0 <= b < 256 && b / 16 == high && b % 16 == low
  {
    high * 16 + low
  }

  /** Packs pairs of nibbles back into bytes; the source panics on an odd length. */
  function FromPath(path: Path): (key: Bytes)
    requires |path| % 2 == 0
    ensures |key| == |path| / 2
  {
    if path == [] then [] else [Pack(path[0], path[1])] + FromPath(path[2..])
  }

  /** Position-wise reading of a path. */
  lemma {:induction false} ToPathAt(key: Bytes, i: nat)
    requires i < |key|
    ensures ToPath(key)[2 * i] == key[i] / 16
    ensures ToPath(key)[2 * i + 1] == key[i] % 16
  {
    if i > 0 {
      ToPathAt(key[1..], i - 1);
      assert ToPath(key)[2 * i] == ToPath(key[1..])[2 * (i - 1)];
      assert ToPath(key)[2 * i + 1] == ToPath(key[1..])[2 * (i - 1) + 1];
    }
  }

  /** Unpacking then packing is the identity on byte keys. */
  lemma {:induction false} FromPathToPath(key: Bytes)
    ensures FromPath(ToPath(key)) == key
  {
    if key != [] {
      assert ToPath(key)[2..] == ToPath(key[1..]);
      FromPathToPath(key[1..]);
    }
  }

  /** Packing then unpacking is the identity on paths of even length. */
  lemma {:induction false} ToPathFromPath(path: Path)
    requires |path| % 2 == 0
    ensures ToPath(FromPath(path)) == path
  {
    if path != [] {
      assert FromPath(path)[1..] == FromPath(path[2..]);
      ToPathFromPath(path[2..]);
      assert path == [path[0], path[1]] + path[2..];
    }
  }

  /** KeyToNibbles, filling the nibble slice by index. */
  method KeyToNibbles(key: Bytes) returns (nibbles: Path)
    ensures nibbles == ToPath(key)
  {
    var buffer := new nibble[|key| * 2];
    for i := 0 to |key|
      invariant forall j :: 0 <= j < i ==> buffer[2 * j] == key[j] / 16 && buffer[2 * j + 1] == key[j] % 16
    {
      buffer[i * 2] := key[i] / 16;
      buffer[i * 2 + 1] := key[i] % 16;
    }
    nibbles := buffer[..];
    forall k | 0 <= k < |nibbles| ensures nibbles[k] == ToPath(key)[k] {
      ToPathAt(key, k / 2);
      assert k == 2 * (k / 2) || k == 2 * (k / 2) + 1;
    }
  }

  /** NibblesToKey on a path of even length (an odd length panics). */
  method NibblesToKey(nibbles: Path) returns (key: Bytes)
    requires |nibbles| % 2 == 0
    ensures key == FromPath(nibbles)
    ensures ToPath(key) == nibbles
  {
    var buffer := new byte[|nibbles| / 2];
    for i := 0 to buffer.Length
      invariant forall j :: 0 <= j < i ==> buffer[j] == Pack(nibbles[2 * j], nibbles[2 * j + 1])
    {
      buffer[i] := Pack(nibbles[2 * i], nibbles[2 * i + 1]);
    }
    key := buffer[..];
    ToPathFromPath(nibbles);
    forall k | 0 <= k < |key| ensures key[k] == FromPath(nibbles)[k] {
      ToPathAt(FromPath(nibbles), k);
    }
  }

  /** Length of the longest common prefix. */
  function Common(a: Path, b: Path): (n: nat)
    ensures n <= |a| && n <= |b|
    ensures a[..n] == b[..n]
    ensures n < |a| && n < |b| ==> a[n] != b[n]
  {
    if a == [] || b == [] || a[0] != b[0] then 0
    else
      var n := 1 + Common(a[1..], b[1..]);
      assert a[..n] == [a[0]] + a[1..][..n - 1];
      assert b[..n] == [b[0]] + b[1..][..n - 1];
      n
  }

  /** Common is the only number with its contract. */
  lemma CommonUnique(a: Path, b: Path, n: nat)
    requires n <= |a| && n <= |b| && a[..n] == b[..n]
    requires n < |a| && n < |b| ==> a[n] != b[n]
    ensures n == Common(a, b)
  {
    var c := Common(a, b);
    assert forall k :: 0 <= k < c ==> a[k] == a[..c][k] == b[..c][k] == b[k];
    assert forall k :: 0 <= k < n ==> a[k] == a[..n][k] == b[..n][k] == b[k];
  }

  /** CommonPrefix, the index scan. */
  method CommonPrefix(a: Path, b: Path) returns (n: nat)
    ensures n == Common(a, b)
  {
    var bound := if |b| < |a| then |b| else |a|;
    n := 0;
    while n < bound && a[n] == b[n]
      invariant n <= bound
      invariant a[..n] == b[..n]
    {
      n := n + 1;
    }
    CommonUnique(a, b, n);
  }
}
