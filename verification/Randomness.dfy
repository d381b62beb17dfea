/**
 Public randomness and its inclusion proofs.  The keyed hash, the curve point and the Merkle tree
 are symbolic constructors: equal outputs come from equal inputs only.
 */
module Randomness {
  import opened Encoding

  /** The signing key and chain a provider's randomness is derived from. */
  datatype Identity = Identity(key: Bytes, chainID: Bytes)

  datatype PrivRand = Hmac(key: Bytes, message: Bytes)

  datatype PubRand = Point(priv: PrivRand)

  /** The Merkle root of a list and the path of one of its entries. */
  datatype Commitment = Root(leaves: seq<PubRand>)

  datatype Proof = Path(leaves: seq<PubRand>, index: nat)

  predicate Verifies(c: Commitment, r: PubRand, index: nat, p: Proof) {
    p.leaves == c.leaves && p.index == index && index < |c.leaves| && c.leaves[index] == r
  }

  /** GenerateRandomness: the private randomness of a height. */
  function PrivAt(id: Identity, h: nat): PrivRand {
    Hmac(id.key, Seed(h, id.chainID))
  }

  function PubAt(id: Identity, h: nat): PubRand {
    Point(PrivAt(id, h))
  }

  /** What the keyed hash is fed: it is keyed with the private key, and its message is the 8-byte
      height followed by the chain. */
  lemma RandomnessLayout(id: Identity, h: nat)
    requires h < UINT64_RANGE
    ensures var r := PrivAt(id, h);
            && r.key == id.key
            && |r.message| == 8 + |id.chainID|
            && FromBigEndian(r.message[..8]) == h && r.message[8..] == id.chainID
    ensures PubAt(id, h).priv == PrivAt(id, h)
  {
    PrefixedLayout(h, id.chainID);
  }

  /** Public randomness is an injective function of key, chain and uint64 height. */
  lemma PubAtIsInjective(id1: Identity, h1: nat, id2: Identity, h2: nat)
    requires h1 < UINT64_RANGE && h2 < UINT64_RANGE
    ensures PubAt(id1, h1) == PubAt(id2, h2) <==> id1 == id2 && h1 == h2
  {
    PrefixedIsInjective(h1, id1.chainID, h2, id2.chainID);
  }

  /** The randomness of the heights start, start + 1, ..., start + num - 1. */
  function PubList(id: Identity, start: nat, num: nat): seq<PubRand> {
    seq(num, (i: nat) => PubAt(id, start + i))
  }

  /** CreateRandomnessPairList; fails when the key is not found. */
  method CreateRandomnessPairList(id: Identity, keyFound: bool, start: nat, num: nat)
    returns (list: seq<PubRand>, ok: bool)
    ensures ok <==> keyFound || num == 0
    ensures ok ==> list == PubList(id, start, num)
  {
    list := [];
    for i := 0 to num
      invariant list == PubList(id, start, i)
      invariant keyFound || i == 0
    {
      if !keyFound {
        return [], false;
      }
      list := list + [PubAt(id, start + i)];
    }
    ok := true;
  }

  /** Lists over different ranges differ, as long as the heights fit 64 bits. */
  lemma PubListIsInjective(id: Identity, s1: nat, n1: nat, s2: nat, n2: nat)
    requires n1 >= 1 && s1 + n1 <= UINT64_RANGE && s2 + n2 <= UINT64_RANGE
    ensures PubList(id, s1, n1) == PubList(id, s2, n2) <==> s1 == s2 && n1 == n2
  {
    var a, b := PubList(id, s1, n1), PubList(id, s2, n2);
    if a == b {
      assert |a| == n1 && |b| == n2;
      assert a[0] == PubAt(id, s1 + 0) && b[0] == PubAt(id, s2 + 0);
      PubAtIsInjective(id, s1, id, s2);
    }
  }

  /** The proof of height h in a list that starts at start. */
  function ProofAt(id: Identity, start: nat, num: nat, h: nat): Proof
    requires start <= h
  {
    Path(PubList(id, start, num), h - start)
  }

  /** The randomness regenerated at vote time for a committed height is the committed entry, is
      the public half of the randomness the signer uses at that height, and its proof verifies
      against the commitment. */
  lemma CommittedEntry(id: Identity, start: nat, num: nat, h: nat)
    requires start <= h < start + num
    ensures PubList(id, h, 1)[0] == PubList(id, start, num)[h - start] == Point(PrivAt(id, h))
    ensures Verifies(Root(PubList(id, start, num)), PubList(id, h, 1)[0], h - start, ProofAt(id, start, num, h))
  {
    assert PubList(id, start, num)[h - start] == PubAt(id, start + (h - start));
    assert PubList(id, h, 1)[0] == PubAt(id, h + 0);
  }

  /** Nothing else verifies at the place of a committed height. */
  lemma OnlyCommittedEntryVerifies(id: Identity, start: nat, num: nat, h: nat, r: PubRand, p: Proof)
    requires start <= h < start + num && Verifies(Root(PubList(id, start, num)), r, h - start, p)
    ensures r == PubAt(id, h) && p == ProofAt(id, start, num, h)
  {
    CommittedEntry(id, start, num, h);
  }

  // ---------------------------------------------------------------------------------------
  // The proof store

  /** First write wins: a key that exists keeps its proof. */
  function AddAll(m: map<PubRand, Proof>, keys: seq<PubRand>, proofs: seq<Proof>): map<PubRand, Proof>
    requires |keys| == |proofs|
  {
    if keys == [] then m
    else
      var n := |keys| - 1;
      var m1 := AddAll(m, keys[..n], proofs[..n]);
      if keys[n] in m1 then m1 else m1[keys[n] := proofs[n]]
  }

  /** What is found after adding a list of distinct keys: an old proof if there was one, else the
      proof added with the key. */
  lemma {:induction false} AddAllLookup(m: map<PubRand, Proof>, keys: seq<PubRand>, proofs: seq<Proof>, r: PubRand)
    requires |keys| == |proofs|
    requires forall i, j :: 0 <= i < j < |keys| ==> keys[i] != keys[j]
    ensures var m' := AddAll(m, keys, proofs);
            && (r in m' <==> r in m || r in keys)
            && (r in m ==> m'[r] == m[r])
            && (forall i :: 0 <= i < |keys| && keys[i] == r && r !in m ==> m'[r] == proofs[i])
  {
    if keys != [] {
      var n := |keys| - 1;
      AddAllLookup(m, keys[..n], proofs[..n], r);
      assert keys == keys[..n] + [keys[n]];
      if r == keys[n] {
        assert r !in keys[..n];
      }
    }
  }

  datatype Lookup<T> = Found(value: T) | NotFound

  class PubRandProofStore {
    var db: map<PubRand, Proof>

    constructor ()
      ensures db == map[]
    {
      db := map[];
    }

    method AddPubRandProofList(keys: seq<PubRand>, proofs: seq<Proof>) returns (ok: bool)
      modifies this
      ensures ok <==> |keys| == |proofs|
      ensures db == if ok then AddAll(old(db), keys, proofs) else old(db)
    {
      if |keys| != |proofs| {
        return false;
      }
      for i := 0 to |keys|
        invariant db == AddAll(old(db), keys[..i], proofs[..i])
      {
        assert keys[..i + 1][..i] == keys[..i] && proofs[..i + 1][..i] == proofs[..i];
        if keys[i] in db {
          continue;
        }
        db := db[keys[i] := proofs[i]];
      }
      assert keys[..|keys|] == keys && proofs[..|keys|] == proofs;
      ok := true;
    }

    method GetPubRandProof(r: PubRand) returns (p: Lookup<Proof>)
      ensures p.Found? <==> r in db
      ensures p.Found? ==> p.value == db[r]
    {
      if r !in db {
        return NotFound;
      }
      return Found(db[r]);
    }

    /** All proofs in order, or nothing when one is missing. */
    method GetPubRandProofList(keys: seq<PubRand>) returns (p: Lookup<seq<Proof>>)
      ensures p.Found? <==> forall r :: r in keys ==> r in db
      ensures p.Found? ==> |p.value| == |keys|
                           && forall i :: 0 <= i < |keys| ==> keys[i] in db && p.value[i] == db[keys[i]]
    {
      var proofs: seq<Proof> := [];
      for i := 0 to |keys|
        invariant |proofs| == i
        invariant forall j :: 0 <= j < i ==> keys[j] in db && proofs[j] == db[keys[j]]
      {
        if keys[i] !in db {
          return NotFound;
        }
        proofs := proofs + [db[keys[i]]];
      }
      return Found(proofs);
    }
  }
}
