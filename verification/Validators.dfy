/**
 * Quorum arithmetic and the vote tally (internal/consensus/types/validator.go,
 * handleVote in internal/consensus/engine/tendermint.go).  Voting power is an
 * abstract number per validator.
 */
module Validators {
  import opened Wrappers
  import StateDB

  const UINT64: nat := 0x1_0000_0000_0000_0000

  type Address = StateDB.Address

  datatype Validator = Validator(addr: Address, power: nat, active: bool)

  // ---- Power ----

  /** byAddress: the last validator listed for an address. */
  function Get(vs: seq<Validator>, addr: Address): Option<Validator> {
    if vs == [] then None
    else if vs[|vs| - 1].addr == addr then Some(vs[|vs| - 1])
    else Get(vs[..|vs| - 1], addr)
  }

  lemma {:induction false} GetMeans(vs: seq<Validator>, addr: Address, v: Validator)
    ensures Get(vs, addr) == Some(v) <==>
            exists i :: 0 <= i < |vs| && vs[i] == v && v.addr == addr
                        && forall j :: i < j < |vs| ==> vs[j].addr != addr
    ensures Get(vs, addr) == None <==> forall i :: 0 <= i < |vs| ==> vs[i].addr != addr
  {
    if vs != [] {
      var front := vs[..|vs| - 1];
      GetMeans(front, addr, v);
      if vs[|vs| - 1].addr != addr {
        assert forall i :: 0 <= i < |front| ==> front[i] == vs[i];
      }
    }
  }

  function PowerAt(vs: seq<Validator>, addr: Address): nat {
    match Get(vs, addr)
    case None => 0
    case Some(v) => v.power
  }

  /** TotalPower before any wrap-around; a repeated address counts each time. */
  function Total(vs: seq<Validator>): nat {
    if vs == [] then 0 else Total(vs[..|vs| - 1]) + vs[|vs| - 1].power
  }

  /** Power of a set of addresses. */
  ghost function PowerOf(vs: seq<Validator>, s: set<Address>): nat {
    if s == {} then 0
    else
      var a :| a in s;
      PowerAt(vs, a) + PowerOf(vs, s - {a})
  }

  lemma {:induction false} PowerWithout(vs: seq<Validator>, s: set<Address>, a: Address)
    requires a in s
    ensures PowerOf(vs, s) == PowerAt(vs, a) + PowerOf(vs, s - {a})
    decreases |s|
  {
    var b :| b in s && PowerOf(vs, s) == PowerAt(vs, b) + PowerOf(vs, s - {b});
    if b != a {
      PowerWithout(vs, s - {b}, a);
      PowerWithout(vs, s - {a}, b);
      assert s - {a} - {b} == s - {b} - {a};
    }
  }

  /** Adding powers of two sets counts what they share twice. */
  lemma {:induction false} PowerUnion(vs: seq<Validator>, s: set<Address>, t: set<Address>)
    ensures PowerOf(vs, s) + PowerOf(vs, t) == PowerOf(vs, s + t) + PowerOf(vs, s * t)
    decreases |s|
  {
    if s == {} {
      assert s + t == t && s * t == {};
    } else {
      var a :| a in s;
      if a in t {
        assert (s - {a}) + t == s + t && (s - {a}) * t == s * t - {a};
        PowerWithout(vs, s * t, a);
      } else {
        assert (s - {a}) + t == s + t - {a} && (s - {a}) * t == s * t;
        PowerWithout(vs, s + t, a);
      }
      PowerWithout(vs, s, a);
      PowerUnion(vs, s - {a}, t);
    }
  }

  lemma {:induction false} PowerSubset(vs: seq<Validator>, s: set<Address>, t: set<Address>)
    requires s <= t
    ensures PowerOf(vs, s) <= PowerOf(vs, t)
  {
    PowerUnion(vs, s, t - s);
    assert s + (t - s) == t && s * (t - s) == {};
  }

  /** A validator that is not in the set adds nothing to it. */
  lemma {:induction false} PowerFront(vs: seq<Validator>, s: set<Address>)
    requires vs != [] && vs[|vs| - 1].addr !in s
    ensures PowerOf(vs, s) == PowerOf(vs[..|vs| - 1], s)
    decreases |s|
  {
    if s != {} {
      var a :| a in s;
      PowerWithout(vs, s, a);
      PowerWithout(vs[..|vs| - 1], s, a);
      PowerFront(vs, s - {a});
    }
  }

  /** No set of addresses has more than the total power, whatever is repeated in the list. */
  lemma {:induction false} PowerBounded(vs: seq<Validator>, s: set<Address>)
    ensures PowerOf(vs, s) <= Total(vs)
    decreases |vs|
  {
    if vs == [] {
      NoValidators(s);
    } else {
      var front, v := vs[..|vs| - 1], vs[|vs| - 1];
      if v.addr in s {
        PowerWithout(vs, s, v.addr);
      }
      PowerFront(vs, s - {v.addr});
      PowerBounded(front, s - {v.addr});
      assert v.addr !in s ==> s - {v.addr} == s;
    }
  }

  lemma {:induction false} NoValidators(s: set<Address>)
    ensures PowerOf([], s) == 0
    decreases |s|
  {
    if s != {} {
      var a :| a in s;
      PowerWithout([], s, a);
      assert Get([], a) == None;
      NoValidators(s - {a});
    }
  }

  // ---- Quorum ----

  /** HasQuorum, with the uint64 product of the source. */
  predicate HasQuorum(voted: nat, total: nat) {
    voted > total * 2 % UINT64 / 3
  }

  lemma ExactWithoutOverflow(voted: nat, total: nat)
    requires total < UINT64 / 2
    ensures HasQuorum(voted, total) <==> 3 * voted > 2 * total
  {
  }

  /** HasQuorum means strictly more than two thirds exactly while twice the total fits a uint64. */
  lemma QuorumIsTwoThirds(total: nat)
    requires total < UINT64
    ensures total < UINT64 / 2 <==> forall voted: nat :: HasQuorum(voted, total) <==> 3 * voted > 2 * total
  {
    if total < UINT64 / 2 {
      forall voted: nat ensures HasQuorum(voted, total) <==> 3 * voted > 2 * total {
        ExactWithoutOverflow(voted, total);
      }
    } else {
      var voted: nat := total * 2 % UINT64 / 3 + 1;
      assert total * 2 % UINT64 == total * 2 - UINT64;
      assert HasQuorum(voted, total) && !(3 * voted > 2 * total);
    }
  }

  /** The decision handleVote takes once a set of addresses has voted: both sums wrap at 2^64. */
  ghost predicate CountedQuorum(vs: seq<Validator>, voters: set<Address>) {
    HasQuorum(PowerOf(vs, voters) % UINT64, Total(vs) % UINT64)
  }

  /** A tally never exceeds the total, so below 2^63 the decision is a true two-thirds majority. */
  lemma TallyIsExact(vs: seq<Validator>, voters: set<Address>)
    requires Total(vs) < UINT64 / 2
    ensures CountedQuorum(vs, voters) <==> 3 * PowerOf(vs, voters) > 2 * Total(vs)
  {
    PowerBounded(vs, voters);
    ExactTally(PowerOf(vs, voters), Total(vs));
  }

  lemma ExactTally(voted: nat, total: nat)
    requires voted <= total < UINT64 / 2
    ensures HasQuorum(voted % UINT64, total % UINT64) <==> 3 * voted > 2 * total
  {
    assert voted % UINT64 == voted && total % UINT64 == total;
    ExactWithoutOverflow(voted, total);
  }

  /** Two quorums share more than a third of the power. */
  lemma QuorumsOverlap(vs: seq<Validator>, s: set<Address>, t: set<Address>)
    requires Total(vs) < UINT64 / 2
    requires CountedQuorum(vs, s) && CountedQuorum(vs, t)
    ensures 3 * PowerOf(vs, s * t) > Total(vs)
  {
    TallyIsExact(vs, s);
    TallyIsExact(vs, t);
    PowerUnion(vs, s, t);
    PowerBounded(vs, s + t);
  }

  /** Hence a validator outside any faulty set of at most a third of the power is in both. */
  lemma QuorumsShareHonest(vs: seq<Validator>, s: set<Address>, t: set<Address>, faulty: set<Address>)
    returns (a: Address)
    requires Total(vs) < UINT64 / 2
    requires CountedQuorum(vs, s) && CountedQuorum(vs, t)
    requires 3 * PowerOf(vs, faulty) <= Total(vs)
    ensures a in s && a in t && a !in faulty && Get(vs, a).Some?
  {
    QuorumsOverlap(vs, s, t);
    var shared := s * t - faulty;
    PowerUnion(vs, shared, s * t * faulty);
    assert shared + s * t * faulty == s * t && shared * (s * t * faulty) == {};
    PowerSubset(vs, s * t * faulty, faulty);
    a := Powerful(vs, shared);
  }

  /** A set with power holds a known validator. */
  lemma {:induction false} Powerful(vs: seq<Validator>, s: set<Address>) returns (a: Address)
    requires PowerOf(vs, s) > 0
    ensures a in s && Get(vs, a).Some?
    decreases |s|
  {
    a :| a in s && PowerOf(vs, s) == PowerAt(vs, a) + PowerOf(vs, s - {a});
    if PowerAt(vs, a) == 0 {
      a := Powerful(vs, s - {a});
    }
  }

  // ---- The validator set ----

  ghost predicate Descending(vs: seq<Validator>) {
    forall i, j :: 0 <= i < j < |vs| ==> vs[i].power >= vs[j].power
  }

  /** Puts a validator in its place in a descending list. */
  method InsertByPower(vs: seq<Validator>, v: Validator) returns (r: seq<Validator>)
    requires Descending(vs)
    ensures Descending(r) && multiset(r) == multiset(vs) + multiset{v}
  {
    var i := 0;
    while i < |vs| && vs[i].power >= v.power
      invariant 0 <= i <= |vs| && forall j :: 0 <= j < i ==> vs[j].power >= v.power
    {
      i := i + 1;
    }
    r := vs[..i] + [v] + vs[i..];
    assert vs == vs[..i] + vs[i..];
  }

  lemma {:induction false} TotalSplit(vs: seq<Validator>, i: nat)
    requires i < |vs|
    ensures Total(vs) == Total(vs[..i] + vs[i + 1..]) + vs[i].power
    decreases |vs|
  {
    var without := vs[..i] + vs[i + 1..];
    if i == |vs| - 1 {
      assert without == vs[..i];
    } else {
      var front := vs[..|vs| - 1];
      TotalSplit(front, i);
      assert without[..|without| - 1] == front[..i] + front[i + 1..];
      assert without[|without| - 1] == vs[|vs| - 1];
    }
  }

  lemma Removed(vs: seq<Validator>, i: nat)
    requires i < |vs|
    ensures multiset(vs[..i] + vs[i + 1..]) == multiset(vs) - multiset{vs[i]}
  {
    assert vs == vs[..i] + [vs[i]] + vs[i + 1..];
  }

  lemma SameLeft(a: seq<Validator>, i: nat, b: seq<Validator>, j: nat)
    requires multiset(a) == multiset(b) && i < |a| && j < |b| && a[i] == b[j]
    ensures multiset(a[..i] + a[i + 1..]) == multiset(b[..j] + b[j + 1..])
  {
    Removed(a, i);
    Removed(b, j);
  }

  /** The total does not depend on the order of the list. */
  lemma {:induction false} TotalOfPermutation(a: seq<Validator>, b: seq<Validator>)
    requires multiset(a) == multiset(b)
    ensures Total(a) == Total(b)
    decreases |a|
  {
    if a == [] {
      assert |b| == |multiset(b)| == 0;
    } else {
      var last := a[|a| - 1];
      assert last in multiset(a);
      var i :| 0 <= i < |b| && b[i] == last;
      assert a[..|a| - 1] + a[|a|..] == a[..|a| - 1];
      SameLeft(a, |a| - 1, b, i);
      TotalSplit(b, i);
      TotalOfPermutation(a[..|a| - 1], b[..i] + b[i + 1..]);
    }
  }

  ghost predicate Distinct(addrs: seq<Address>) {
    forall i, j :: 0 <= i < j < |addrs| ==> addrs[i] != addrs[j]
  }

  ghost function Members(addrs: seq<Address>): set<Address> {
    set a | a in addrs
  }

  lemma MemberAdded(vs: seq<Validator>, addrs: seq<Address>, i: nat)
    requires i < |addrs| && Distinct(addrs)
    ensures PowerOf(vs, Members(addrs[..i + 1])) == PowerOf(vs, Members(addrs[..i])) + PowerAt(vs, addrs[i])
  {
    assert addrs[..i + 1] == addrs[..i] + [addrs[i]];
    PowerWithout(vs, Members(addrs[..i + 1]), addrs[i]);
    assert Members(addrs[..i + 1]) - {addrs[i]} == Members(addrs[..i]);
  }

  ghost predicate Indexes(index: map<Address, Validator>, given: seq<Validator>) {
    forall a :: if a in index then Get(given, a) == Some(index[a]) else Get(given, a) == None
  }

  lemma WrapAdd(x: nat, y: nat)
    ensures (x % UINT64 + y) % UINT64 == (x + y) % UINT64
  {
  }

  /** The power of a list, repetitions included. */
  function PowerListed(vs: seq<Validator>, addrs: seq<Address>): nat {
    if addrs == [] then 0 else PowerListed(vs, addrs[..|addrs| - 1]) + PowerAt(vs, addrs[|addrs| - 1])
  }

  /** A list without repetitions has the power of its set. */
  lemma {:induction false} ListedOnce(vs: seq<Validator>, addrs: seq<Address>)
    requires Distinct(addrs)
    ensures PowerListed(vs, addrs) == PowerOf(vs, Members(addrs))
  {
    if addrs != [] {
      var i := |addrs| - 1;
      ListedOnce(vs, addrs[..i]);
      MemberAdded(vs, addrs, i);
      assert addrs[..i + 1] == addrs;
    }
  }

  /** One step of SumPower. */
  lemma CountOne(given: seq<Validator>, index: map<Address, Validator>, addrs: seq<Address>, i: nat, total: nat)
    requires Indexes(index, given) && i < |addrs|
    requires total == PowerListed(given, addrs[..i]) % UINT64
    ensures PowerListed(given, addrs[..i + 1]) % UINT64
         == if addrs[i] in index then (total + index[addrs[i]].power) % UINT64 else total
  {
    assert addrs[..i + 1][..i] == addrs[..i];
    assert PowerAt(given, addrs[i]) == if addrs[i] in index then index[addrs[i]].power else 0;
    WrapAdd(PowerListed(given, addrs[..i]), PowerAt(given, addrs[i]));
  }

  /** One step of the constructor's loop. */
  lemma ReadOne(given: seq<Validator>, i: nat, index: map<Address, Validator>, total: nat)
    requires i < |given| && Indexes(index, given[..i]) && total == Total(given[..i]) % UINT64
    ensures Indexes(index[given[i].addr := given[i]], given[..i + 1])
    ensures (total + given[i].power) % UINT64 == Total(given[..i + 1]) % UINT64
    ensures multiset(given[..i + 1]) == multiset(given[..i]) + multiset{given[i]}
  {
    assert given[..i + 1][..i] == given[..i];
    assert given[..i + 1] == given[..i] + [given[i]];
    WrapAdd(Total(given[..i]), given[i].power);
  }

  class ValidatorSet {
    var validators: seq<Validator>
    var totalPower: nat
    var byAddress: map<Address, Validator>

    /** The index agrees with the given list; the total is its sum modulo 2^64. */
    ghost predicate Valid(given: seq<Validator>)
      reads this
    {
      && Descending(validators) && multiset(validators) == multiset(given)
      && totalPower == Total(given) % UINT64
      && Indexes(byAddress, given)
    }

    /** NewValidatorSet. */
    constructor (given: seq<Validator>)
      ensures Valid(given)
    {
      var index: map<Address, Validator> := map[];
      var total: nat := 0;
      var sorted := [];
      for i := 0 to |given|
        invariant total == Total(given[..i]) % UINT64
        invariant Indexes(index, given[..i])
        invariant Descending(sorted) && multiset(sorted) == multiset(given[..i])
      {
        ReadOne(given, i, index, total);
        index := index[given[i].addr := given[i]];
        total := (total + given[i].power) % UINT64;
        sorted := InsertByPower(sorted, given[i]);
      }
      assert given[..|given|] == given;
      validators, totalPower, byAddress := sorted, total, index;
    }

    /** SumPower: each listed address counts, as often as it is listed; the sum is a uint64. */
    method SumPower(addrs: seq<Address>, ghost given: seq<Validator>) returns (total: nat)
      requires Indexes(byAddress, given)
      ensures total == PowerListed(given, addrs) % UINT64
    {
      total := 0;
      for i := 0 to |addrs|
        invariant total == PowerListed(given, addrs[..i]) % UINT64
      {
        var addr := addrs[i];
        CountOne(given, byAddress, addrs, i, total);
        if addr in byAddress {
          total := (total + byAddress[addr].power) % UINT64;
        }
      }
      assert addrs[..|addrs|] == addrs;
    }

    /** Proposer; None stands for nil. */
    method Proposer(height: nat, round: nat) returns (v: Option<Validator>)
      ensures v == if validators == [] then None else Some(validators[ProposerAt(height, round, |validators|)])
      ensures validators != [] ==>
                v == Some(validators[(height + round) % 0x1_0000_0000_0000_0000 % |validators|])
    {
      if |validators| == 0 {
        return None;
      }
      return Some(validators[(height + round) % UINT64 % |validators|]);
    }
  }

  /** The index of the proposer among n validators: a uint64 sum, then a remainder. */
  function ProposerAt(height: nat, round: nat, n: nat): (i: nat)
    requires n > 0
    ensures i < n
  {
    (height + round) % UINT64 % n
  }

  /** The sum of height and round passes 2^64 between two rounds. */
  predicate WrapsBetween(height: nat, round: nat, later: nat) {
    (height + round) / UINT64 != (height + later) / UINT64
  }

  /**
   * Among as many consecutive rounds as there are validators, two have the same
   * proposer exactly when the sum wraps between them and 2^64 leaves their
   * distance as remainder.
   */
  lemma ProposersDiffer(height: nat, round: nat, later: nat, n: nat)
    requires round < later < round + n && n <= UINT64
    ensures ProposerAt(height, round, n) == ProposerAt(height, later, n)
            <==> WrapsBetween(height, round, later) && UINT64 % n == later - round
  {
    TurnsCollide(height + round, later - round, n, UINT64);
  }

  /** Where the sum does not wrap, or the number of validators divides 2^64, every one proposes. */
  lemma EveryoneProposes(height: nat, round: nat, n: nat, index: nat) returns (turn: nat)
    requires index < n <= UINT64
    requires UINT64 % n == 0 || !WrapsBetween(height, round, round + n - 1)
    ensures round <= turn < round + n && ProposerAt(height, turn, n) == index
  {
    var r := ProposerAt(height, round, n);
    var k := if index >= r then index - r else index - r + n;
    turn := round + k;
    if k > 0 {
      TurnAfter(height + round, k, n - 1, n, UINT64);
    }
  }

  /** Otherwise somebody proposes twice. */
  lemma RotationBreaks(height: nat, round: nat, n: nat) returns (first: nat, second: nat)
    requires 0 < n <= UINT64 && UINT64 % n != 0 && WrapsBetween(height, round, round + n - 1)
    ensures round <= first < second < round + n && ProposerAt(height, first, n) == ProposerAt(height, second, n)
  {
    var x, e := height + round, UINT64 % n;
    WrapStep(x, n - 1, UINT64);
    var left := UINT64 - x % UINT64;
    var i := if left >= e then left - e else 0;
    first, second := round + i, round + i + e;
    Inside(x, i, e, UINT64);
    TurnsCollide(x + i, e, n, UINT64);
  }

  /** The rounds before and after a wrap lie on different sides of it. */
  lemma Inside(x: nat, i: nat, e: nat, u: nat)
    requires u > 0 && i < u - x % u <= i + e && e < u
    ensures (x + i) / u != (x + i + e) / u
  {
    WrapStep(x, i, u);
    assert (x + i) % u == x % u + i;
    WrapStep(x + i, e, u);
  }

  lemma WrapStep(x: nat, d: nat, u: nat)
    requires d < u
    ensures if x % u + d < u then (x + d) / u == x / u && (x + d) % u == x % u + d
            else (x + d) / u == x / u + 1 && (x + d) % u == x % u + d - u
  {
    var q, a := x / u, x % u;
    assert x == u * q + a;
    if a + d < u {
      DivModUnique(x + d, u, q, a + d);
    } else {
      assert u * (q + 1) == u * q + u;
      DivModUnique(x + d, u, q + 1, a + d - u);
    }
  }

  lemma TurnsCollide(x: nat, d: nat, n: nat, u: nat)
    requires 0 < d < n <= u
    ensures x % u % n == (x + d) % u % n <==> x / u != (x + d) / u && u % n == d
  {
    var a := x % u;
    WrapStep(x, d, u);
    if a + d < u {
      Residue(a, d, n);
    } else {
      ResidueEqual(a + d - u, u - d, n);
      ResidueEqual(d, u - d, n);
      Remains(d, n);
    }
  }

  lemma Remains(d: nat, n: nat)
    requires d < n
    ensures d % n == d
  {
  }

  lemma ResidueEqual(y: nat, k: nat, n: nat)
    requires n > 0
    ensures (y + k) % n == y % n <==> k % n == 0
  {
    var p, s := k / n, k % n;
    assert k == n * p + s;
    Residue(y, s, n);
    WholeTurns(y + s, p, n);
  }

  lemma WholeTurns(y: nat, p: nat, n: nat)
    requires n > 0
    ensures (y + n * p) % n == y % n
  {
    var q := y / n;
    assert y == n * q + y % n;
    assert n * (q + p) == n * q + n * p;
    DivModUnique(y + n * p, n, q + p, y % n);
  }

  lemma TurnAfter(x: nat, k: nat, last: nat, n: nat, u: nat)
    requires 0 < k <= last < n <= u
    requires u % n == 0 || x / u == (x + last) / u
    ensures var r := x % u % n;
            (x + k) % u % n == if r + k < n then r + k else r + k - n
  {
    var a := x % u;
    WrapStep(x, k, u);
    WrapStep(x, last, u);
    Residue(a, k, n);
    if a + k >= u {
      var p := u / n;
      assert u == n * p + u % n;
      WholeTurns(a + k - u, p, n);
    }
  }

  lemma Residue(base: nat, k: nat, n: nat)
    requires k < n
    ensures (base + k) % n == if base % n + k < n then base % n + k else base % n + k - n
  {
    var q, r := base / n, base % n;
    assert base == n * q + r;
    if r + k < n {
      assert base + k == n * q + (r + k);
      DivModUnique(base + k, n, q, r + k);
    } else {
      assert base + k == n * (q + 1) + (r + k - n);
      DivModUnique(base + k, n, q + 1, r + k - n);
    }
  }

  lemma DivModUnique(x: nat, n: nat, q: nat, r: nat)
    requires n > 0 && x == n * q + r && r < n
    ensures x % n == r && x / n == q
  {
    var d := x / n;
    assert x == n * d + x % n;
    if d < q {
      assert n * q >= n * (d + 1) by { Times(d + 1, q, n); }
    } else if d > q {
      assert n * d >= n * (q + 1) by { Times(q + 1, d, n); }
    }
  }

  lemma Times(a: nat, b: nat, n: nat)
    requires a <= b
    ensures n * a <= n * b
  {
  }

  // ---- The tally ----

  datatype VoteType = Prevote | Precommit | CommitVote

  datatype Vote = Vote(kind: VoteType, blockHash: seq<int>, validator: Address)

  datatype Reaction = Panics | Ignored | Recorded(quorum: bool)

  /** The vote maps of one engine. */
  class Tally {
    const validators: ValidatorSet
    var prevotes: map<Address, Vote>
    var precommits: map<Address, Vote>
    var validBlock: Option<seq<int>>

    constructor (vs: ValidatorSet)
      ensures validators == vs && prevotes == map[] && precommits == map[] && validBlock == None
    {
      validators := vs;
      prevotes, precommits, validBlock := map[], map[], None;
    }

    /** prevoteAddrs and precommitAddrs: the keys of a vote map, in any order. */
    method Addresses(votes: map<Address, Vote>) returns (addrs: seq<Address>)
      ensures Distinct(addrs) && Members(addrs) == votes.Keys
    {
      addrs := [];
      var pending := votes.Keys;
      while pending != {}
        invariant pending <= votes.Keys
        invariant Distinct(addrs)
        invariant forall a :: a in addrs <==> a in votes.Keys && a !in pending
        decreases pending
      {
        var a :| a in pending;
        addrs := addrs + [a];
        pending := pending - {a};
      }
    }

    /**
     * handleVote.  A vote from an address that is no validator dereferences
     * nil; one from an inactive validator is ignored; any other replaces the
     * voter's earlier vote of its kind, and reports whether the voters have a quorum.
     */
    method HandleVote(v: Vote, ghost given: seq<Validator>) returns (r: Reaction)
      requires validators.Valid(given)
      modifies this
      ensures validators.Valid(given)
      ensures match Get(given, v.validator)
              case None => r == Panics && Unchanged(old(prevotes), old(precommits))
              case Some(w) =>
                if !w.active then r == Ignored && Unchanged(old(prevotes), old(precommits))
                else
                  && prevotes == (if v.kind.Prevote? then old(prevotes)[v.validator := v] else old(prevotes))
                  && precommits == (if v.kind.Precommit? then old(precommits)[v.validator := v] else old(precommits))
                  && r.Recorded?
                  && (v.kind.Prevote? ==> (r.quorum <==> CountedQuorum(given, prevotes.Keys)))
                  && (v.kind.Precommit? ==> (r.quorum <==> CountedQuorum(given, precommits.Keys)))
                  && (v.kind.CommitVote? ==> !r.quorum)
      ensures validBlock == if r == Recorded(true) && v.kind.Prevote? then Some(v.blockHash) else old(validBlock)
    {
      if v.validator !in validators.byAddress {
        return Panics;
      }
      if !validators.byAddress[v.validator].active {
        return Ignored;
      }
      match v.kind
      case Prevote =>
        prevotes := prevotes[v.validator := v];
        var quorum := VotersHaveQuorum(prevotes, given);
        if quorum {
          validBlock := Some(v.blockHash);
        }
        r := Recorded(quorum);
      case Precommit =>
        precommits := precommits[v.validator := v];
        var quorum := VotersHaveQuorum(precommits, given);
        r := Recorded(quorum);
      case CommitVote =>
        r := Recorded(false);
    }

    ghost predicate Unchanged(pre: map<Address, Vote>, com: map<Address, Vote>)
      reads this
    {
      prevotes == pre && precommits == com
    }

    method VotersHaveQuorum(votes: map<Address, Vote>, ghost given: seq<Validator>) returns (quorum: bool)
      requires validators.Valid(given)
      ensures quorum <==> CountedQuorum(given, votes.Keys)
    {
      var addrs := Addresses(votes);
      var power := validators.SumPower(addrs, given);
      ListedOnce(given, addrs);
      quorum := HasQuorum(power, validators.totalPower);
    }
  }
}
