/** The fleet's stable hashing and the rendezvous placement of vehicles on primaries. */
module Placement {

  // ----- FNV-1a over a byte string -----

  function Scale(x: bv64): bv64 { x * 0x0000_0100_0000_01b3 }

  function Widen(byte: bv8): bv64 { byte as bv64 }

  function Absorb(hash: bv64, byte: bv8): bv64 { Scale(Mask(hash, Widen(byte))) }

  function Fnv1aFrom(hash: bv64, bytes: seq<bv8>): bv64
    decreases |bytes|
  {
    if bytes == [] then hash else Fnv1aFrom(Absorb(hash, bytes[0]), bytes[1..])
  }

  function Fnv1aOf(bytes: seq<bv8>): bv64 { Fnv1aFrom(0xcbf2_9ce4_8422_2325, bytes) }

  /** The hash loop. */
  method Fnv1a(bytes: seq<bv8>) returns (hash: bv64)
    ensures hash == Fnv1aOf(bytes)
  {
    hash := 0xcbf2_9ce4_8422_2325;
    for i := 0 to |bytes|
      invariant Fnv1aFrom(hash, bytes[i..]) == Fnv1aOf(bytes)
    {
      assert bytes[i..][1..] == bytes[i + 1..];
      hash := Absorb(hash, bytes[i]);
    }
  }

  function Unscale(x: bv64): bv64 { x * 0xce96_5057_aff6_957b }

  lemma ScaleInverts(x: bv64)
    ensures Unscale(Scale(x)) == x
  {
    assert Scale(x) == x * 0x0000_0100_0000_01b3;
    assert Unscale(x * 0x0000_0100_0000_01b3) == x;
  }

  lemma XorCancels(x: bv64, y: bv64, mask: bv64)
    requires x ^ mask == y ^ mask
    ensures x == y
  {
  }

  /** Masking, named so that a hash step is a composition of two named steps. */
  function Mask(x: bv64, mask: bv64): bv64 { x ^ mask }

  lemma MaskInverts(x: bv64, mask: bv64)
    ensures Mask(Mask(x, mask), mask) == x
  {
    assert Mask(x, mask) == x ^ mask;
    assert Mask(x ^ mask, mask) == x;
  }

  function Release(hash: bv64, byte: bv8): bv64 { Mask(Unscale(hash), Widen(byte)) }

  lemma AbsorbInverts(x: bv64, byte: bv8)
    ensures Release(Absorb(x, byte), byte) == x
  {
    ScaleInverts(Mask(x, Widen(byte)));
    MaskInverts(x, Widen(byte));
  }

  /** Reading the same bytes after two different hashes never makes them collide. */
  lemma {:induction false} CommonSuffixNeverCollides(x: bv64, y: bv64, bytes: seq<bv8>)
    ensures Fnv1aFrom(x, bytes) == Fnv1aFrom(y, bytes) <==> x == y
    decreases |bytes|
  {
    if bytes != [] {
      CommonSuffixNeverCollides(Absorb(x, bytes[0]), Absorb(y, bytes[0]), bytes[1..]);
      AbsorbInverts(x, bytes[0]);
      AbsorbInverts(y, bytes[0]);
    }
  }

  lemma ReadOne(hash: bv64, byte: bv8, rest: seq<bv8>, masked: bv64, scaled: bv64)
    requires Mask(hash, Widen(byte)) == masked && Scale(masked) == scaled
    ensures Fnv1aFrom(hash, [byte] + rest) == Fnv1aFrom(scaled, rest)
  {
    assert ([byte] + rest)[1..] == rest;
  }

  /** The published test vectors: the offset basis for no bytes, and the hash of the letter a. */
  lemma ReferenceVectors()
    ensures Fnv1aOf([]) == 0xcbf2_9ce4_8422_2325
    ensures Fnv1aOf([0x61]) == 0xaf63_dc4c_8601_ec8c
  {
    ReadOne(0xcbf2_9ce4_8422_2325, 0x61, [], 0xcbf2_9ce4_8422_2344, 0xaf63_dc4c_8601_ec8c);
    assert [0x61 as bv8] == [0x61] + [];
  }

  lemma ReadTwo(hash: bv64, a: bv8, b: bv8, rest: seq<bv8>, one: bv64, two: bv64)
    requires Absorb(hash, a) == one && Absorb(one, b) == two
    ensures Fnv1aFrom(hash, [a, b] + rest) == Fnv1aFrom(two, rest)
  {
    assert ([a, b] + rest)[1..] == [b] + rest && ([b] + rest)[1..] == rest;
  }

  lemma ReadVe(rest: seq<bv8>)
    ensures Fnv1aFrom(0xcbf2_9ce4_8422_2325, [0x76, 0x65] + rest) == Fnv1aFrom(0x08cf_3f07_b570_e984, rest)
  {
    ReadTwo(0xcbf2_9ce4_8422_2325, 0x76, 0x65, rest, 0xaf63_eb4c_8602_0609, 0x08cf_3f07_b570_e984);
  }

  lemma ReadHi(rest: seq<bv8>)
    ensures Fnv1aFrom(0x08cf_3f07_b570_e984, [0x68, 0x69] + rest) == Fnv1aFrom(0x671c_ca01_025a_6d37, rest)
  {
    ReadTwo(0x08cf_3f07_b570_e984, 0x68, 0x69, rest, 0x6912_0619_4edd_7c04, 0x671c_ca01_025a_6d37);
  }

  lemma ReadCl(rest: seq<bv8>)
    ensures Fnv1aFrom(0x671c_ca01_025a_6d37, [0x63, 0x6c] + rest) == Fnv1aFrom(0xee48_cff4_6a15_2070, rest)
  {
    ReadTwo(0x671c_ca01_025a_6d37, 0x63, 0x6c, rest, 0x9058_93b6_ffa7_c5bc, 0xee48_cff4_6a15_2070);
  }

  lemma ReadEDash(rest: seq<bv8>)
    ensures Fnv1aFrom(0xee48_cff4_6a15_2070, [0x65, 0x2d] + rest) == Fnv1aFrom(0x24ff_0d5f_f8fe_75e6, rest)
  {
    ReadTwo(0xee48_cff4_6a15_2070, 0x65, 0x2d, rest, 0xfad9_7150_41e5_83af, 0x24ff_0d5f_f8fe_75e6);
  }

  lemma Read42(rest: seq<bv8>)
    ensures Fnv1aFrom(0x24ff_0d5f_f8fe_75e6, [0x34, 0x32] + rest) == Fnv1aFrom(0xf4dc_ea25_6ede_2c6c, rest)
  {
    ReadTwo(0x24ff_0d5f_f8fe_75e6, 0x34, 0x32, rest, 0xdbd9_8c14_1862_33d6, 0xf4dc_ea25_6ede_2c6c);
  }

  /** And the fleet's own vector, a vehicle's name. */
  lemma VehicleVector()
    ensures Fnv1aOf([0x76, 0x65] + ([0x68, 0x69] + ([0x63, 0x6c] + ([0x65, 0x2d] + ([0x34, 0x32] + []))))) == 0xf4dc_ea25_6ede_2c6c
  {
    ReadVe([0x68, 0x69] + ([0x63, 0x6c] + ([0x65, 0x2d] + ([0x34, 0x32] + []))));
    ReadHi([0x63, 0x6c] + ([0x65, 0x2d] + ([0x34, 0x32] + [])));
    ReadCl([0x65, 0x2d] + ([0x34, 0x32] + []));
    ReadEDash([0x34, 0x32] + []);
    Read42([]);
  }

  // ----- The splitmix64 finaliser and its inverse -----

  function Fold30(x: bv64): bv64 { x ^ (x >> (30 as bv64)) }

  function Fold27(x: bv64): bv64 { x ^ (x >> (27 as bv64)) }

  function Fold31(x: bv64): bv64 { x ^ (x >> (31 as bv64)) }

  function Unfold30(y: bv64): bv64 { y ^ (y >> (30 as bv64)) ^ (y >> (60 as bv64)) }

  function Unfold27(y: bv64): bv64 { y ^ (y >> (27 as bv64)) ^ (y >> (54 as bv64)) }

  function Unfold31(y: bv64): bv64 { y ^ (y >> (31 as bv64)) ^ (y >> (62 as bv64)) }

  function Stretch(x: bv64): bv64 { x * 0xbf58_476d_1ce4_e5b9 }

  function Spread(x: bv64): bv64 { x * 0x94d0_49bb_1331_11eb }

  function Unstretch(x: bv64): bv64 { x * 0x96de_1b17_3f11_9089 }

  function Unspread(x: bv64): bv64 { x * 0x3196_42b2_d24d_8ec3 }

  /** The finaliser: two shift-and-multiply rounds and a closing shift. */
  function Mix(x: bv64): bv64 { Fold31(Spread(Fold27(Stretch(Fold30(x))))) }

  function Unmix(y: bv64): bv64 { Unfold30(Unstretch(Unfold27(Unspread(Unfold31(y))))) }

  lemma Fold30Inverts(x: bv64)
    ensures Unfold30(Fold30(x)) == x
  {
    assert Fold30(x) == x ^ (x >> (30 as bv64));
    assert Unfold30(x ^ (x >> (30 as bv64))) == x;
  }

  lemma Unfold30Inverts(y: bv64)
    ensures Fold30(Unfold30(y)) == y
  {
    assert Unfold30(y) == y ^ (y >> (30 as bv64)) ^ (y >> (60 as bv64));
    assert Fold30(y ^ (y >> (30 as bv64)) ^ (y >> (60 as bv64))) == y;
  }

  lemma Fold27Inverts(x: bv64)
    ensures Unfold27(Fold27(x)) == x
  {
    assert Fold27(x) == x ^ (x >> (27 as bv64));
    assert Unfold27(x ^ (x >> (27 as bv64))) == x;
  }

  lemma Unfold27Inverts(y: bv64)
    ensures Fold27(Unfold27(y)) == y
  {
    assert Unfold27(y) == y ^ (y >> (27 as bv64)) ^ (y >> (54 as bv64));
    assert Fold27(y ^ (y >> (27 as bv64)) ^ (y >> (54 as bv64))) == y;
  }

  lemma Fold31Inverts(x: bv64)
    ensures Unfold31(Fold31(x)) == x
  {
    assert Fold31(x) == x ^ (x >> (31 as bv64));
    assert Unfold31(x ^ (x >> (31 as bv64))) == x;
  }

  lemma Unfold31Inverts(y: bv64)
    ensures Fold31(Unfold31(y)) == y
  {
    assert Unfold31(y) == y ^ (y >> (31 as bv64)) ^ (y >> (62 as bv64));
    assert Fold31(y ^ (y >> (31 as bv64)) ^ (y >> (62 as bv64))) == y;
  }

  lemma StretchInverts(x: bv64)
    ensures Unstretch(Stretch(x)) == x
  {
    assert Stretch(x) == x * 0xbf58_476d_1ce4_e5b9;
    assert Unstretch(x * 0xbf58_476d_1ce4_e5b9) == x;
  }

  lemma UnstretchInverts(x: bv64)
    ensures Stretch(Unstretch(x)) == x
  {
    assert Unstretch(x) == x * 0x96de_1b17_3f11_9089;
    assert Stretch(x * 0x96de_1b17_3f11_9089) == x;
  }

  lemma SpreadInverts(x: bv64)
    ensures Unspread(Spread(x)) == x
  {
    assert Spread(x) == x * 0x94d0_49bb_1331_11eb;
    assert Unspread(x * 0x94d0_49bb_1331_11eb) == x;
  }

  lemma UnspreadInverts(x: bv64)
    ensures Spread(Unspread(x)) == x
  {
    assert Unspread(x) == x * 0x3196_42b2_d24d_8ec3;
    assert Spread(x * 0x3196_42b2_d24d_8ec3) == x;
  }

  /** Mixing loses nothing: it is a bijection of the 64-bit values. */
  lemma MixIsBijective(x: bv64)
    ensures Unmix(Mix(x)) == x
    ensures Mix(Unmix(x)) == x
  {
    Fold30Inverts(x);
    StretchInverts(Fold30(x));
    Fold27Inverts(Stretch(Fold30(x)));
    SpreadInverts(Fold27(Stretch(Fold30(x))));
    Fold31Inverts(Spread(Fold27(Stretch(Fold30(x)))));
    var a := Unfold31(x);
    Unfold31Inverts(x);
    UnspreadInverts(a);
    Unfold27Inverts(Unspread(a));
    UnstretchInverts(Unfold27(Unspread(a)));
    Unfold30Inverts(Unstretch(Unfold27(Unspread(a))));
  }

  /** The fleet's externally computed vectors, which pin every constant of the mix. */
  lemma MixVectors()
    ensures Mix(1) == 0x5692_161d_100b_05e5
    ensures Mix(0xdead_beef) == 0x4e06_2702_ec92_9eea
    ensures Mix(0xffff_ffff_ffff_ffff) == 0xb4d0_55fc_f2cb_bd7b
  {
    assert Fold30(1) == 0x0000_0000_0000_0001 && Stretch(0x0000_0000_0000_0001) == 0xbf58_476d_1ce4_e5b9;
    assert Fold27(0xbf58_476d_1ce4_e5b9) == 0xbf58_477a_f7ec_081a && Spread(0xbf58_477a_f7ec_081a) == 0x5692_161d_bd2f_29de;
    assert Fold31(0x5692_161d_bd2f_29de) == 0x5692_161d_100b_05e5;
    assert Fold30(0xdead_beef) == 0x0000_0000_dead_beec && Stretch(0x0000_0000_dead_beec) == 0xce2f_d9ee_3188_148c;
    assert Fold27(0xce2f_d9ee_3188_148c) == 0xce2f_d9f7_f473_294a && Spread(0xce2f_d9f7_f473_294a) == 0x4e06_2702_709e_d0ee;
    assert Fold31(0x4e06_2702_709e_d0ee) == 0x4e06_2702_ec92_9eea;
    assert Fold30(0xffff_ffff_ffff_ffff) == 0xffff_fffc_0000_0000 && Stretch(0xffff_fffc_0000_0000) == 0x8c6c_691c_0000_0000;
    assert Fold27(0x8c6c_691c_0000_0000) == 0x8c6c_690d_8d8d_2380 && Spread(0x8c6c_690d_8d8d_2380) == 0xb4d0_55fd_9b6b_1680;
    assert Fold31(0xb4d0_55fd_9b6b_1680) == 0xb4d0_55fc_f2cb_bd7b;
  }

  lemma MixIsInjective(x: bv64, y: bv64)
    ensures Mix(x) == Mix(y) <==> x == y
  {
    MixIsBijective(x);
    MixIsBijective(y);
  }

  // ----- Partitions of the vehicle id space -----

  const PARTITIONS: nat := 1024

  function Residue(mixed: bv64): (r: nat)
    ensures r < 1024 && exists q: nat :: mixed as nat == 1024 * q + r
  {
    var n := mixed as nat;
    assert n == 1024 * (n / 1024) + n % 1024;
    n % PARTITIONS
  }

  function PartitionOf(vehicle: bv64): nat { Residue(Mix(vehicle)) }

  /** The fleet's own partition vectors. */
  lemma PartitionVectors()
    ensures PartitionOf(1) == 485 && PartitionOf(0xdead_beef) == 746 && PartitionOf(0xffff_ffff_ffff_ffff) == 379
  {
    MixVectors();
    ResidueVectors();
  }

  lemma ResidueVectors()
    ensures Residue(0x5692_161d_100b_05e5) == 485 && Residue(0x4e06_2702_ec92_9eea) == 746
    ensures Residue(0xb4d0_55fc_f2cb_bd7b) == 379
  {
  }

  /** No partition is idle: undoing the mix names a vehicle of each. */
  lemma EveryPartitionIsUsed(p: bv64)
    requires (p as nat) < PARTITIONS
    ensures PartitionOf(Unmix(p)) == p as nat
  {
    MixIsBijective(p);
    assert Residue(p) == p as nat;
  }

  // ----- Rendezvous placement -----

  /** The comparison key of one primary: its mixed score, then its own seed. */
  datatype Key = Key(score: nat, seed: nat)

  predicate Below(a: Key, b: Key) { a.score < b.score || (a.score == b.score && a.seed < b.seed) }

  function KeyOf(hash: bv64, seed: bv64): Key { Key(Mix(hash ^ seed) as nat, seed as nat) }

  /** No two seeds score alike for one key. */
  ghost predicate Separates(keyOf: bv64 -> Key) {
    forall s, t {:trigger keyOf(s), keyOf(t)} :: keyOf(s).score == keyOf(t).score ==> s == t
  }

  /** The primary that owns a key: its score is strictly above every other's. */
  ghost predicate Owns(keyOf: bv64 -> Key, fleet: set<bv64>, s: bv64) {
    s in fleet && forall t {:trigger keyOf(t)} :: t in fleet && t != s ==> keyOf(t).score < keyOf(s).score
  }

  /** The keys a hashed key gives to every possible primary. */
  function Keys(hash: bv64): bv64 -> Key { s => KeyOf(hash, s) }

  lemma OnlyEqualSeedsTie(hash: bv64, s: bv64, t: bv64)
    ensures KeyOf(hash, s).score == KeyOf(hash, t).score <==> s == t
  {
    if KeyOf(hash, s).score == KeyOf(hash, t).score {
      WidthIsExact(Mix(hash ^ s), Mix(hash ^ t));
      MixIsInjective(hash ^ s, hash ^ t);
      XorCancels(s, t, hash);
    }
  }

  lemma WidthIsExact(x: bv64, y: bv64)
    requires x as nat == y as nat
    ensures x == y
  {
    assert (x as nat) as bv64 == x;
    assert (y as nat) as bv64 == y;
  }

  lemma KeysSeparate(hash: bv64)
    ensures Separates(Keys(hash))
  {
    forall s, t | Keys(hash)(s).score == Keys(hash)(t).score ensures s == t {
      OnlyEqualSeedsTie(hash, s, t);
    }
  }

  ghost function SeedsOf(seeds: seq<bv64>): set<bv64> { set s | s in seeds }

  /** The last index whose key no other exceeds, as an iterator's maximum picks it. */
  method LastMaximum(keyOf: bv64 -> Key, seeds: seq<bv64>) returns (index: nat)
    requires |seeds| > 0
    ensures index < |seeds|
    ensures forall j :: 0 <= j < |seeds| ==> !Below(keyOf(seeds[index]), keyOf(seeds[j]))
    ensures forall j :: index < j < |seeds| ==> keyOf(seeds[j]) != keyOf(seeds[index])
  {
    index := 0;
    for i := 1 to |seeds|
      invariant index < i
      invariant forall j :: 0 <= j < i ==> !Below(keyOf(seeds[index]), keyOf(seeds[j]))
      invariant forall j :: index < j < i ==> keyOf(seeds[j]) != keyOf(seeds[index])
    {
      if !Below(keyOf(seeds[i]), keyOf(seeds[index])) { index := i; }
    }
  }

  /** A maximum under separating keys is the strict owner. */
  lemma MaximumOwns(keyOf: bv64 -> Key, seeds: seq<bv64>, index: nat)
    requires Separates(keyOf)
    requires index < |seeds|
    requires forall j :: 0 <= j < |seeds| ==> !Below(keyOf(seeds[index]), keyOf(seeds[j]))
    ensures Owns(keyOf, SeedsOf(seeds), seeds[index])
  {
    forall t | t in SeedsOf(seeds) && t != seeds[index] ensures keyOf(t).score < keyOf(seeds[index]).score {
      var j :| 0 <= j < |seeds| && seeds[j] == t;
      assert !Below(keyOf(seeds[index]), keyOf(seeds[j]));
    }
  }

  function SeedsFrom(urls: seq<seq<bv8>>): (seeds: seq<bv64>)
    ensures |seeds| == |urls|
    ensures forall i {:trigger seeds[i]} :: 0 <= i < |urls| ==> seeds[i] == Fnv1aOf(urls[i])
  {
    seq(|urls|, i requires 0 <= i < |urls| => Fnv1aOf(urls[i]))
  }

  /** The index of the primary for a key: the owner among the fleet's seeds, at its last position. */
  method IndexFor(seeds: seq<bv64>, key: seq<bv8>) returns (index: nat)
    requires |seeds| > 0
    ensures index < |seeds|
    ensures Owns(Keys(Fnv1aOf(key)), SeedsOf(seeds), seeds[index])
    ensures forall j :: index < j < |seeds| ==> seeds[j] != seeds[index]
    ensures forall j :: 0 <= j < |seeds| ==> Score(Fnv1aOf(key), seeds[j]) <= Score(Fnv1aOf(key), seeds[index])
  {
    var hash := Fnv1a(key);
    index := LastMaximum(Keys(hash), seeds);
    KeysSeparate(hash);
    MaximumOwns(Keys(hash), seeds, index);
    OwnerScoresHighest(hash, seeds, index);
  }

  /** An owner's mixed score is the highest. */
  lemma OwnerScoresHighest(hash: bv64, seeds: seq<bv64>, index: nat)
    requires index < |seeds| && Owns(Keys(hash), SeedsOf(seeds), seeds[index])
    ensures forall j :: 0 <= j < |seeds| ==> Score(hash, seeds[j]) <= Score(hash, seeds[index])
  {
    forall j | 0 <= j < |seeds|
      ensures Score(hash, seeds[j]) <= Score(hash, seeds[index])
    {
      NoneScoresHigher(Keys(hash), seeds, index, j);
      KeyScores(hash, seeds[j]);
      KeyScores(hash, seeds[index]);
    }
  }

  lemma NoneScoresHigher(keyOf: bv64 -> Key, seeds: seq<bv64>, index: nat, j: nat)
    requires index < |seeds| && j < |seeds| && Owns(keyOf, SeedsOf(seeds), seeds[index])
    ensures keyOf(seeds[j]).score <= keyOf(seeds[index]).score
  {
    var s, t := seeds[index], seeds[j];
    assert t in SeedsOf(seeds);
    if t != s {
      assert keyOf(t).score < keyOf(s).score;
    }
  }

  lemma KeyScores(hash: bv64, seed: bv64)
    ensures Keys(hash)(seed).score == Score(hash, seed)
  {
  }

  /** The mixed score of a primary for a hashed key. */
  ghost function Score(hash: bv64, seed: bv64): nat { Mix(hash ^ seed) as nat }

  /** One owner at most, so fleets with the same seeds in any order and multiplicity agree. */
  lemma OwnerIsUnique(keyOf: bv64 -> Key, fleet: set<bv64>, s: bv64, t: bv64)
    requires Owns(keyOf, fleet, s) && Owns(keyOf, fleet, t)
    ensures s == t
  {
    var a, b := keyOf(s), keyOf(t);
  }

  /** Two lists naming the same endpoints, reordered or repeated, give every key to the same seed. */
  lemma ReorderingKeepsTheSeed(
      urls: seq<seq<bv8>>, others: seq<seq<bv8>>, keyOf: bv64 -> Key, i: nat, j: nat)
    requires forall url :: url in urls <==> url in others
    requires i < |urls| && Owns(keyOf, SeedsOf(SeedsFrom(urls)), SeedsFrom(urls)[i])
    requires j < |others| && Owns(keyOf, SeedsOf(SeedsFrom(others)), SeedsFrom(others)[j])
    ensures SeedsFrom(urls)[i] == SeedsFrom(others)[j]
  {
    SeedsFollowUrls(urls, others);
    SeedsFollowUrls(others, urls);
    assert SeedsOf(SeedsFrom(urls)) == SeedsOf(SeedsFrom(others));
    OwnerIsUnique(keyOf, SeedsOf(SeedsFrom(urls)), SeedsFrom(urls)[i], SeedsFrom(others)[j]);
  }

  /** No two of these endpoints hash alike. */
  ghost predicate SeedsDiffer(urls: seq<seq<bv8>>) {
    forall a, b :: a in urls && b in urls && Fnv1aOf(a) == Fnv1aOf(b) ==> a == b
  }

  /** And to the same endpoint, as long as no two endpoints hash alike; of two that do, the later listed wins. */
  lemma ReorderingMovesNoKey(
      urls: seq<seq<bv8>>, others: seq<seq<bv8>>, keyOf: bv64 -> Key, i: nat, j: nat)
    requires SeedsDiffer(urls) && forall url :: url in urls <==> url in others
    requires i < |urls| && Owns(keyOf, SeedsOf(SeedsFrom(urls)), SeedsFrom(urls)[i])
    requires j < |others| && Owns(keyOf, SeedsOf(SeedsFrom(others)), SeedsFrom(others)[j])
    ensures urls[i] == others[j]
  {
    ReorderingKeepsTheSeed(urls, others, keyOf, i, j);
    assert urls[i] in urls && others[j] in urls;
  }

  lemma SeedsFollowUrls(urls: seq<seq<bv8>>, others: seq<seq<bv8>>)
    requires forall url :: url in urls ==> url in others
    ensures SeedsOf(SeedsFrom(urls)) <= SeedsOf(SeedsFrom(others))
  {
    forall s | s in SeedsOf(SeedsFrom(urls)) ensures s in SeedsOf(SeedsFrom(others)) {
      var i :| 0 <= i < |urls| && SeedsFrom(urls)[i] == s;
      assert urls[i] in others;
      var j :| 0 <= j < |others| && others[j] == urls[i];
      assert SeedsFrom(others)[j] == s;
    }
  }

  /** Growing the fleet by one primary moves a key only onto that primary, and exactly when it outscores the owner. */
  lemma GrowthMovesOnlyOntoTheNew(keyOf: bv64 -> Key, fleet: set<bv64>, added: bv64, before: bv64, after: bv64)
    requires Separates(keyOf)
    requires Owns(keyOf, fleet, before) && Owns(keyOf, fleet + {added}, after)
    ensures after == if keyOf(added).score > keyOf(before).score then added else before
  {
    var w := if keyOf(added).score > keyOf(before).score then added else before;
    assert Owns(keyOf, fleet + {added}, w);
    OwnerIsUnique(keyOf, fleet + {added}, w, after);
  }

  /** Dropping a primary moves only the keys it owned. */
  lemma LossMovesOnlyTheLost(keyOf: bv64 -> Key, fleet: set<bv64>, lost: bv64, before: bv64, after: bv64)
    requires Owns(keyOf, fleet, before) && Owns(keyOf, fleet - {lost}, after)
    ensures after == before <==> lost != before
  {
    if lost != before {
      assert Owns(keyOf, fleet - {lost}, before);
      OwnerIsUnique(keyOf, fleet - {lost}, before, after);
    }
  }
}
