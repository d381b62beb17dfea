/**
 Single and batched finality signatures: how blocks, public randomness, proofs and signatures are
 paired, and when the pairing is right.
 */
module Batch {
  import opened Encoding
  import opened Randomness
  import opened Commitments
  import opened StoredProofs
  import opened Eligibility

  const MAX_UINT32 := 0xFFFF_FFFF

  datatype Block = Block(height: nat, hash: Bytes)

  /** An extractable one-time signature: it determines key, randomness and message. */
  datatype Signature = Eots(key: Bytes, priv: PrivRand, message: Bytes)

  /** One vote as sent to the chain. */
  datatype Message = Message(block: Block, rand: PubRand, proof: Proof, sig: Signature)

  datatype Submission = Sent(messages: seq<Message>) | EmptyBatch | BatchTooLarge | KeyMissing | ProofMissing

  /** SignEOTS over the vote message of a block, with the randomness of the block's height. */
  function Sign(id: Identity, b: Block): Signature {
    Eots(id.key, PrivAt(id, b.height), VoteMessage(b.height, b.hash))
  }

  /** The randomness the i-th message of a batch carries: counted on from the first block. */
  function RandFor(id: Identity, blocks: seq<Block>, i: nat): PubRand
    requires i < |blocks|
  {
    PubAt(id, blocks[0].height + i)
  }

  /** The i-th message of a batch: the block and signature are the i-th block's, the randomness and
      proof are those of the i-th height counted from the first block. */
  function MessageAt(id: Identity, db: map<PubRand, Proof>, blocks: seq<Block>, i: nat): Message
    requires i < |blocks| && RandFor(id, blocks, i) in db
  {
    var r := RandFor(id, blocks, i);
    Message(blocks[i], r, db[r], Sign(id, blocks[i]))
  }

  ghost predicate ProofsPresent(id: Identity, db: map<PubRand, Proof>, blocks: seq<Block>) {
    forall i :: 0 <= i < |blocks| ==> RandFor(id, blocks, i) in db
  }

  /** SubmitBatchFinalitySignatures up to the transaction it sends. */
  method BuildBatch(id: Identity, keyFound: bool, store: PubRandProofStore, blocks: seq<Block>) returns (r: Submission)
    ensures r.EmptyBatch? <==> blocks == []
    ensures r.BatchTooLarge? <==> |blocks| > MAX_UINT32
    ensures r.KeyMissing? <==> 0 < |blocks| <= MAX_UINT32 && !keyFound
    ensures r.Sent? <==> 0 < |blocks| <= MAX_UINT32 && keyFound && ProofsPresent(id, store.db, blocks)
    ensures r.Sent? ==> |r.messages| == |blocks|
                        && forall i :: 0 <= i < |blocks| ==> r.messages[i] == MessageAt(id, store.db, blocks, i)
  {
    if |blocks| == 0 {
      return EmptyBatch;
    }
    if |blocks| > MAX_UINT32 {
      return BatchTooLarge;
    }
    var prList, ok := CreateRandomnessPairList(id, keyFound, blocks[0].height, |blocks|);
    if !ok {
      return KeyMissing;
    }
    assert forall i :: 0 <= i < |blocks| ==> prList[i] == RandFor(id, blocks, i) && prList[i] in prList;
    var proofs := store.GetPubRandProofList(prList);
    if proofs.NotFound? {
      return ProofMissing;
    }
    var sigs := SignAll(id, blocks);
    var messages := Pair(blocks, prList, proofs.value, sigs);
    return Sent(messages.value);
  }

  method SignAll(id: Identity, blocks: seq<Block>) returns (sigs: seq<Signature>)
    ensures |sigs| == |blocks| && forall i :: 0 <= i < |blocks| ==> sigs[i] == Sign(id, blocks[i])
  {
    sigs := [];
    for k := 0 to |blocks|
      invariant |sigs| == k && forall i :: 0 <= i < k ==> sigs[i] == Sign(id, blocks[i])
    {
      sigs := sigs + [Sign(id, blocks[k])];
    }
  }

  /** SubmitBatchFinalitySigs: one message per index; refused when blocks and signatures differ in
      number. Randomness and proofs are indexed without a check. */
  method Pair(blocks: seq<Block>, rands: seq<PubRand>, proofs: seq<Proof>, sigs: seq<Signature>)
    returns (r: Lookup<seq<Message>>)
    requires |blocks| <= |rands| && |blocks| <= |proofs|
    ensures r.Found? <==> |blocks| == |sigs|
    ensures r.Found? ==> |r.value| == |blocks|
    ensures r.Found? ==>
              forall i :: 0 <= i < |blocks| ==> r.value[i] == Message(blocks[i], rands[i], proofs[i], sigs[i])
  {
    if |blocks| != |sigs| {
      return NotFound;
    }
    var ms: seq<Message> := [];
    for k := 0 to |blocks|
      invariant |ms| == k
      invariant forall i :: 0 <= i < k ==> ms[i] == Message(blocks[i], rands[i], proofs[i], sigs[i])
    {
      ms := ms + [Message(blocks[k], rands[k], proofs[k], sigs[k])];
    }
    return Found(ms);
  }

  // ---------------------------------------------------------------------------------------
  // Alignment

  /** Randomness, proof and signature of the message all belong to the height of its block. */
  predicate Aligned(id: Identity, db: map<PubRand, Proof>, m: Message) {
    var r := PubAt(id, m.block.height);
    && m.rand == r
    && r in db && m.proof == db[r]
    && Point(m.sig.priv) == m.rand
    && m.sig.message == VoteMessage(m.block.height, m.block.hash)
  }

  ghost predicate AscendingBlocks(blocks: seq<Block>) {
    forall i, j :: 0 <= i < j < |blocks| ==> blocks[i].height < blocks[j].height
  }

  lemma {:induction false} AscendingGrows(blocks: seq<Block>, i: nat)
    requires AscendingBlocks(blocks) && i < |blocks|
    ensures blocks[0].height + i <= blocks[i].height
  {
    if i > 0 {
      AscendingGrows(blocks, i - 1);
    }
  }

  /** In a batch of ascending heights the i-th message is aligned exactly when its height is the
      first height plus i, so all messages are aligned if and only if the heights are consecutive. */
  lemma BatchAlignedIffConsecutive(id: Identity, db: map<PubRand, Proof>, blocks: seq<Block>)
    requires AscendingBlocks(blocks) && ProofsPresent(id, db, blocks)
    requires forall i :: 0 <= i < |blocks| ==> blocks[i].height < UINT64_RANGE
    ensures forall i :: 0 <= i < |blocks| ==>
              (Aligned(id, db, MessageAt(id, db, blocks, i)) <==> blocks[i].height == blocks[0].height + i)
    ensures (forall i :: 0 <= i < |blocks| ==> Aligned(id, db, MessageAt(id, db, blocks, i)))
            <==> (forall i :: 0 <= i < |blocks| ==> blocks[i].height == blocks[0].height + i)
  {
    forall i | 0 <= i < |blocks|
      ensures Aligned(id, db, MessageAt(id, db, blocks, i)) <==> blocks[i].height == blocks[0].height + i
    {
      AscendingGrows(blocks, i);
      PubAtIsInjective(id, blocks[0].height + i, id, blocks[i].height);
    }
  }

  /** The chain's check of one message against the commitment over c. */
  predicate ChainAccepts(id: Identity, c: Range, m: Message) {
    && c.Covers(m.block.height)
    && Verifies(Root(PubList(id, c.start, c.num)), m.rand, m.block.height - c.start, m.proof)
    && m.sig == Eots(id.key, m.rand.priv, VoteMessage(m.block.height, m.block.hash))
  }

  /** The chain accepts the i-th message of a batch against a commitment over its height exactly when
      the message is aligned and the stored proof matches the commitment. */
  lemma AcceptedIff(id: Identity, b: Book, c: Range, blocks: seq<Block>, i: nat)
    requires i < |blocks| && ProofsPresent(id, b.proofs, blocks) && c.Covers(blocks[i].height)
    ensures ChainAccepts(id, c, MessageAt(id, b.proofs, blocks, i))
            <==> Aligned(id, b.proofs, MessageAt(id, b.proofs, blocks, i)) && Matched(id, b, c, blocks[i].height)
  {
    CommittedEntry(id, c.start, c.num, blocks[i].height);
  }

  /** A vote cast alone is a batch of one block: it is always aligned. */
  lemma SingleVoteIsAligned(id: Identity, db: map<PubRand, Proof>, b: Block)
    requires PubAt(id, b.height) in db
    ensures RandFor(id, [b], 0) in db && Aligned(id, db, MessageAt(id, db, [b], 0))
  {
    assert [b][0].height + 0 == b.height;
  }

  // ---------------------------------------------------------------------------------------
  // From commitment runs to accepted batches

  /** Some commitment on chain makes the chain accept the message. */
  ghost predicate AcceptedOnChain(id: Identity, commits: seq<Range>, m: Message) {
    exists c :: c in commits && ChainAccepts(id, c, m)
  }

  ghost predicate Committed(commits: seq<Range>, h: nat) {
    exists k :: 0 <= k < |commits| && commits[k].Covers(h)
  }

  /** A height under a commitment after the first one. */
  ghost predicate LaterCommitted(commits: seq<Range>, h: nat) {
    exists k :: 0 < k < |commits| && commits[k].Covers(h)
  }

  /** The stored proof of the height matches a commitment on chain. */
  ghost predicate MatchedOnChain(id: Identity, b: Book, h: nat) {
    exists c :: c in b.commits && c.Covers(h) && Matched(id, b, c, h)
  }

  /** Every height between two committed heights has a stored proof. */
  lemma ProofBetween(id: Identity, attempts: seq<Attempt>, lo: nat, h: nat, hi: nat)
    requires Admissible(id, attempts) && lo <= h <= hi
    requires Committed(TriedAll(id, EMPTY, attempts).commits, lo)
    requires Committed(TriedAll(id, EMPTY, attempts).commits, hi)
    ensures PubAt(id, h) in TriedAll(id, EMPTY, attempts).proofs
  {
    var commits := TriedAll(id, EMPTY, attempts).commits;
    CommitsTile(id, attempts);
    var i :| 0 <= i < |commits| && commits[i].Covers(lo);
    var j :| 0 <= j < |commits| && commits[j].Covers(hi);
    TilesAreBounded(commits, i);
    TilesAreBounded(commits, j);
    var k := TileOf(commits, h);
    ProofMatchesIff(id, attempts, commits[k], h);
  }

  lemma OnChainIff(id: Identity, b: Book, blocks: seq<Block>, i: nat)
    requires i < |blocks| && ProofsPresent(id, b.proofs, blocks)
    ensures var m := MessageAt(id, b.proofs, blocks, i);
            AcceptedOnChain(id, b.commits, m) <==> Aligned(id, b.proofs, m) && MatchedOnChain(id, b, blocks[i].height)
  {
    var h, m := blocks[i].height, MessageAt(id, b.proofs, blocks, i);
    forall c | c in b.commits && c.Covers(h)
      ensures ChainAccepts(id, c, m) <==> Aligned(id, b.proofs, m) && Matched(id, b, c, h)
    {
      AcceptedIff(id, b, c, blocks, i);
    }
    if AcceptedOnChain(id, b.commits, m) {
      var c :| c in b.commits && ChainAccepts(id, c, m);
      assert c.Covers(h) && Matched(id, b, c, h);
    }
    if Aligned(id, b.proofs, m) && MatchedOnChain(id, b, h) {
      var c :| c in b.commits && c.Covers(h) && Matched(id, b, c, h);
      assert ChainAccepts(id, c, m);
    }
  }

  lemma CommittedProofsPresent(id: Identity, attempts: seq<Attempt>, blocks: seq<Block>)
    requires Admissible(id, attempts) && AscendingBlocks(blocks)
    requires forall i :: 0 <= i < |blocks| ==> Committed(TriedAll(id, EMPTY, attempts).commits, blocks[i].height)
    ensures ProofsPresent(id, TriedAll(id, EMPTY, attempts).proofs, blocks)
  {
    forall i | 0 <= i < |blocks| ensures RandFor(id, blocks, i) in TriedAll(id, EMPTY, attempts).proofs {
      AscendingGrows(blocks, i);
      ProofBetween(id, attempts, blocks[0].height, blocks[0].height + i, blocks[i].height);
    }
  }

  /** Over every run of commitment attempts, whatever the tips and list sizes: the chain accepts every
      message of a batch of ascending committed blocks if and only if the block heights are
      consecutive and the stored proof of each matches its commitment. */
  lemma BatchAcceptedIff(id: Identity, attempts: seq<Attempt>, blocks: seq<Block>)
    requires Admissible(id, attempts) && AscendingBlocks(blocks)
    requires forall i :: 0 <= i < |blocks| ==> Committed(TriedAll(id, EMPTY, attempts).commits, blocks[i].height)
    ensures var b := TriedAll(id, EMPTY, attempts);
            && ProofsPresent(id, b.proofs, blocks)
            && ((forall i :: 0 <= i < |blocks| ==> AcceptedOnChain(id, b.commits, MessageAt(id, b.proofs, blocks, i)))
                <==> && (forall i :: 0 <= i < |blocks| ==> blocks[i].height == blocks[0].height + i)
                     && (forall i :: 0 <= i < |blocks| ==> MatchedOnChain(id, b, blocks[i].height)))
  {
    var b := TriedAll(id, EMPTY, attempts);
    CommittedProofsPresent(id, attempts, blocks);
    forall i | 0 <= i < |blocks|
      ensures AcceptedOnChain(id, b.commits, MessageAt(id, b.proofs, blocks, i))
              <==> Aligned(id, b.proofs, MessageAt(id, b.proofs, blocks, i)) && MatchedOnChain(id, b, blocks[i].height)
      ensures blocks[i].height < UINT64_RANGE
    {
      OnChainIff(id, b, blocks, i);
      CommittedFits(id, attempts, blocks[i].height);
    }
    BatchAlignedIffConsecutive(id, b.proofs, blocks);
  }

  lemma LaterIsMatched(id: Identity, attempts: seq<Attempt>, num: nat, h: nat)
    requires Admissible(id, attempts) && SteadyRun(attempts, num)
    requires LaterCommitted(TriedAll(id, EMPTY, attempts).commits, h)
    ensures Committed(TriedAll(id, EMPTY, attempts).commits, h)
    ensures MatchedOnChain(id, TriedAll(id, EMPTY, attempts), h)
  {
    var b := TriedAll(id, EMPTY, attempts);
    var k :| 0 < k < |b.commits| && b.commits[k].Covers(h);
    LaterCommitmentsAlwaysMatch(id, attempts, num, k, h);
  }

  /** With one list size and tips that do not go back the proofs of commitments after the first always
      match: the chain accepts the batch if and only if the block heights are consecutive. */
  lemma BatchAcceptedIffConsecutive(id: Identity, attempts: seq<Attempt>, num: nat, blocks: seq<Block>)
    requires Admissible(id, attempts) && SteadyRun(attempts, num) && AscendingBlocks(blocks)
    requires forall i :: 0 <= i < |blocks| ==> LaterCommitted(TriedAll(id, EMPTY, attempts).commits, blocks[i].height)
    ensures var b := TriedAll(id, EMPTY, attempts);
            && ProofsPresent(id, b.proofs, blocks)
            && ((forall i :: 0 <= i < |blocks| ==> AcceptedOnChain(id, b.commits, MessageAt(id, b.proofs, blocks, i)))
                <==> (forall i :: 0 <= i < |blocks| ==> blocks[i].height == blocks[0].height + i))
  {
    forall i | 0 <= i < |blocks|
      ensures Committed(TriedAll(id, EMPTY, attempts).commits, blocks[i].height)
      ensures MatchedOnChain(id, TriedAll(id, EMPTY, attempts), blocks[i].height)
    {
      LaterIsMatched(id, attempts, num, blocks[i].height);
    }
    BatchAcceptedIff(id, attempts, blocks);
  }

  lemma CommittedFits(id: Identity, attempts: seq<Attempt>, h: nat)
    requires Admissible(id, attempts) && Committed(TriedAll(id, EMPTY, attempts).commits, h)
    ensures h < UINT64_RANGE
  {
    var b := TriedAll(id, EMPTY, attempts);
    var k :| 0 <= k < |b.commits| && b.commits[k].Covers(h);
    CommitsAreWritten(id, attempts, b.commits[k]);
    WrittenAlwaysFits(id, attempts);
  }

  /** One-time randomness is safe to use again exactly on the same block: two signatures under one
      key and chain share their randomness if and only if the heights agree, and then they sign the
      same message if and only if the block hashes agree. On a fork-free chain a repeated vote
      therefore repeats the signature and reveals nothing. */
  lemma RandomnessReuse(id: Identity, a: Block, b: Block)
    requires a.height < UINT64_RANGE && b.height < UINT64_RANGE
    ensures Sign(id, a).priv == Sign(id, b).priv <==> a.height == b.height
    ensures Sign(id, a).message == Sign(id, b).message <==> a == b
    ensures Sign(id, a) == Sign(id, b) <==> a == b
  {
    PubAtIsInjective(id, a.height, id, b.height);
    PrefixedIsInjective(a.height, a.hash, b.height, b.hash);
  }

  // ---------------------------------------------------------------------------------------
  // Fast-sync pages

  ghost predicate Consecutive(s: seq<nat>) {
    forall i :: 0 <= i < |s| ==> s[i] == s[0] + i
  }

  /** No block without power lies between two blocks of the range that get a vote. */
  ghost predicate NoGap(power: Power, above: nat, lo: nat, hi: nat) {
    forall a, b, c :: lo <= a < b < c < hi && IsEligible(power, above, a) && IsEligible(power, above, c)
      ==> power(b) > 0
  }

  /** The votes of a page have consecutive heights if and only if no powerless block lies between
      two eligible ones. */
  lemma PageConsecutiveIff(power: Power, above: nat, lo: nat, hi: nat)
    ensures Consecutive(Eligible(power, above, lo, hi)) <==> NoGap(power, above, lo, hi)
  {
    var e := Eligible(power, above, lo, hi);
    EligibleIsExact(power, above, lo, hi);
    if Consecutive(e) {
      forall a, b, c | lo <= a < b < c < hi && IsEligible(power, above, a) && IsEligible(power, above, c)
        ensures power(b) > 0
      {
        assert a in e && c in e;
        var i :| 0 <= i < |e| && e[i] == a;
        var k :| 0 <= k < |e| && e[k] == c;
        assert e[b - e[0]] == b;
        assert b in e;
      }
    }
    if NoGap(power, above, lo, hi) {
      forall i | 0 <= i < |e| ensures e[i] == e[0] + i {
        NoGapAscends(power, above, lo, hi, i);
      }
    }
  }

  lemma {:induction false} NoGapAscends(power: Power, above: nat, lo: nat, hi: nat, i: nat)
    requires NoGap(power, above, lo, hi) && i < |Eligible(power, above, lo, hi)|
    ensures Eligible(power, above, lo, hi)[i] == Eligible(power, above, lo, hi)[0] + i
  {
    var e := Eligible(power, above, lo, hi);
    if i > 0 {
      NoGapAscends(power, above, lo, hi, i - 1);
      EligibleIsExact(power, above, lo, hi);
      var a, c := e[i - 1], e[i];
      assert a in e && c in e;
      var b := a + 1;
      if b < c {
        Between(e, i, b);
      }
    }
  }

  lemma Between(e: seq<nat>, i: nat, b: nat)
    requires Ascending(e) && 0 < i < |e| && e[i - 1] < b < e[i]
    ensures b !in e
  {
  }

  /** The blocks of a page that fast sync submits as one batch. */
  function PageBlocks(power: Power, hash: nat -> Bytes, above: nat, lo: nat, hi: nat): seq<Block> {
    var e := Eligible(power, above, lo, hi);
    seq(|e|, (i: nat) requires i < |e| => Block(e[i], hash(e[i])))
  }

  lemma PageBlocksShape(power: Power, hash: nat -> Bytes, above: nat, lo: nat, hi: nat)
    ensures var blocks := PageBlocks(power, hash, above, lo, hi);
            && AscendingBlocks(blocks)
            && (forall i :: 0 <= i < |blocks| ==> lo <= blocks[i].height < hi)
            && ((forall i :: 0 <= i < |blocks| ==> blocks[i].height == blocks[0].height + i)
                <==> NoGap(power, above, lo, hi))
  {
    var e, blocks := Eligible(power, above, lo, hi), PageBlocks(power, hash, above, lo, hi);
    EligibleIsExact(power, above, lo, hi);
    PageConsecutiveIff(power, above, lo, hi);
    assert forall i :: 0 <= i < |e| ==> e[i] in e && blocks[i].height == e[i];
  }

  /** In the batch that fast sync makes of a page, every message's block, randomness, proof and
      signature belong to one height if and only if no powerless block of the page lies between two
      eligible ones. */
  lemma PageAlignedIff(id: Identity, db: map<PubRand, Proof>, power: Power, hash: nat -> Bytes,
                       above: nat, lo: nat, hi: nat)
    requires hi <= UINT64_RANGE && ProofsPresent(id, db, PageBlocks(power, hash, above, lo, hi))
    ensures var blocks := PageBlocks(power, hash, above, lo, hi);
            (forall i :: 0 <= i < |blocks| ==> Aligned(id, db, MessageAt(id, db, blocks, i)))
            <==> NoGap(power, above, lo, hi)
  {
    PageBlocksShape(power, hash, above, lo, hi);
    BatchAlignedIffConsecutive(id, db, PageBlocks(power, hash, above, lo, hi));
  }

  /** Over every run of commitment attempts the chain accepts the whole batch of a page under
      commitments if and only if no powerless block of the page lies between two eligible ones and the
      stored proof of every eligible height matches its commitment. */
  lemma PageAcceptedIff(id: Identity, attempts: seq<Attempt>, power: Power, hash: nat -> Bytes,
                        above: nat, lo: nat, hi: nat)
    requires Admissible(id, attempts)
    requires var blocks := PageBlocks(power, hash, above, lo, hi);
             forall i :: 0 <= i < |blocks| ==> Committed(TriedAll(id, EMPTY, attempts).commits, blocks[i].height)
    ensures var b, blocks := TriedAll(id, EMPTY, attempts), PageBlocks(power, hash, above, lo, hi);
            && ProofsPresent(id, b.proofs, blocks)
            && ((forall i :: 0 <= i < |blocks| ==> AcceptedOnChain(id, b.commits, MessageAt(id, b.proofs, blocks, i)))
                <==> && NoGap(power, above, lo, hi)
                     && (forall i :: 0 <= i < |blocks| ==> MatchedOnChain(id, b, blocks[i].height)))
  {
    PageBlocksShape(power, hash, above, lo, hi);
    BatchAcceptedIff(id, attempts, PageBlocks(power, hash, above, lo, hi));
  }

  /** With one list size and tips that do not go back, and under commitments after the first, the gap
      alone decides. */
  lemma SteadyPageAcceptedIff(id: Identity, attempts: seq<Attempt>, num: nat, power: Power, hash: nat -> Bytes,
                              above: nat, lo: nat, hi: nat)
    requires Admissible(id, attempts) && SteadyRun(attempts, num)
    requires var blocks := PageBlocks(power, hash, above, lo, hi);
             forall i :: 0 <= i < |blocks| ==> LaterCommitted(TriedAll(id, EMPTY, attempts).commits, blocks[i].height)
    ensures var b, blocks := TriedAll(id, EMPTY, attempts), PageBlocks(power, hash, above, lo, hi);
            && ProofsPresent(id, b.proofs, blocks)
            && ((forall i :: 0 <= i < |blocks| ==> AcceptedOnChain(id, b.commits, MessageAt(id, b.proofs, blocks, i)))
                <==> NoGap(power, above, lo, hi))
  {
    PageBlocksShape(power, hash, above, lo, hi);
    BatchAcceptedIffConsecutive(id, attempts, num, PageBlocks(power, hash, above, lo, hi));
  }

  /** A page with power at 5 and 7 but not at 6 produces a batch whose second message carries the
      randomness of 6. */
  lemma GappedPageIsMisaligned(id: Identity, db: map<PubRand, Proof>, hash: Bytes)
    requires PubAt(id, 5) in db && PubAt(id, 6) in db
    ensures var blocks := [Block(5, hash), Block(7, hash)];
            && RandFor(id, blocks, 1) in db
            && MessageAt(id, db, blocks, 1).rand == PubAt(id, 6)
            && !Aligned(id, db, MessageAt(id, db, blocks, 1))
  {
    var blocks := [Block(5, hash), Block(7, hash)];
    assert blocks[0].height + 1 == 6;
    PubAtIsInjective(id, 6, id, 7);
  }
}
