/** From a block template to the verdict on a share (`build_job` of
    src/bitcoin/template.rs and `validate_share_no_dedup` of
    src/mining/validator.rs), composed of the parts proved elsewhere.

    Hexadecimal strings of the node's answer are the bytes they denote. */
module ShareCheck {
  import opened Wrappers
  import opened Bytes
  import opened Merkle
  import opened Target
  import Header
  import Coinbase
  import HashDifficulty
  import Varint
  import Bip34

  type Word = Header.Word

  /** What `getblocktemplate` returned, hashes in display order. */
  datatype Template = Template(
    height: nat, reward: nat, version: Word, prevHash: seq<byte>, bits: nat, curTime: nat, minTime: nat,
    txids: seq<seq<byte>>, transactions: seq<seq<byte>>, commitment: Coinbase.Commitment)

  datatype Pool = Pool(address: Coinbase.Address, tag: seq<byte>, len1: nat, len2: nat)

  datatype Job = Job(
    coinbase: Coinbase.Job, branch: seq<Hash>, prevHash: seq<byte>, version: Word, bits: nat, curTime: nat, minTime: nat,
    networkTarget: seq<byte>, transactions: seq<seq<byte>>)

  datatype BuildError = BadCoinbase | MalformedTxid | BadPrevHash | TargetOverflow

  datatype JobResult = Made(job: Job) | Failed(error: BuildError)

  /** Every txid from display to internal order. */
  function Internal(txids: seq<seq<byte>>): (leaves: seq<Hash>)
    ensures |leaves| == |txids|
    ensures forall i :: 0 <= i < |txids| ==> |leaves[i]| == |txids[i]| && LeNat(leaves[i]) == BeNat(txids[i])
  {
    assert forall i :: 0 <= i < |txids| ==> LeNat(Reverse(txids[i])) == BeNat(txids[i]) by {
      forall i | 0 <= i < |txids| ensures LeNat(Reverse(txids[i])) == BeNat(txids[i]) {
        ReverseSwapsEndianness(txids[i]);
      }
    }
    seq(|txids|, i requires 0 <= i < |txids| => Reverse(txids[i]))
  }

  predicate WellFormedTxids(txids: seq<seq<byte>>) { forall i :: 0 <= i < |txids| ==> |txids[i]| == 32 }

  /** The target is the compact one written out. */
  ghost predicate Expands(bits: nat, target: seq<byte>) {
    |target| == 32 && exists e: nat, s: nat, m: nat :: IsCompact(bits, e, s, m) && BeNat(target) == Expanded(e, m)
  }

  /** The job stands for the template: whatever coinbase is put in, climbing the branch
      gives the root of the tree over it and all transactions of the template. */
  ghost predicate Describes(dsha: Hasher, job: Job, t: Template) {
    && |job.prevHash| == 32 && Header.SwapWords(job.prevHash) == Reverse(t.prevHash)
    && (forall c: Hash :: Climb(dsha, c, job.branch) == MerkleRoot(dsha, [c] + Internal(t.txids)))
    && job.version == t.version && job.bits == t.bits && job.curTime == t.curTime && job.minTime == t.minTime
    && job.transactions == t.transactions && Expands(t.bits, job.networkTarget)
    && Splits(job.coinbase)
  }

  predicate ConfigOk(pool: Pool) {
    Coinbase.ValidUtf8(pool.tag) && 5 + |pool.tag| + (if pool.len1 + pool.len2 < 4 then 4 else pool.len1 + pool.len2) <= 100
  }

  /** What the coinbase of a job must be. */
  ghost predicate PaysFor(cb: Coinbase.Job, t: Template, pool: Pool) {
    && Coinbase.InputsFit(t.reward, pool.address, t.commitment) && pool.address.Pays? && !t.commitment.BadHex?
    && cb.len1 == pool.len1 && cb.len2 == pool.len2
    && Coinbase.IsTemplate(Coinbase.Built(cb.template, cb.offset), t.height, pool.tag, pool.len1 + pool.len2,
                           Coinbase.OutputBytes(t.reward, pool.address, t.commitment))
  }

  /** Split around the region it was built with. */
  ghost predicate Splits(cb: Coinbase.Job) {
    cb.offset + cb.len1 + cb.len2 <= |cb.template| && cb == Coinbase.SplitJob(cb.template, cb.offset, cb.len1, cb.len2)
  }

  method BuildCoinbaseJob(t: Template, pool: Pool) returns (r: Option<Coinbase.Job>)
    requires t.height <= U64_MAX && Coinbase.InputsFit(t.reward, pool.address, t.commitment) && ConfigOk(pool)
    ensures r.None? <==> pool.address.Unparsed? || t.commitment.BadHex?
    ensures r.Some? ==> Splits(r.value)
    ensures r.Some? ==> (PaysFor(r.value, t, pool) <==> !Coinbase.SpellsSentinel(Bip34.HeightPush(t.height)))
  {
    var built := Coinbase.BuildCoinbase(t.height, t.reward, pool.address, pool.tag, pool.len1, pool.len2, t.commitment);
    if !built.Built? {
      return None;
    }
    var job := Coinbase.SplitJob(built.bytes, built.offset, pool.len1, pool.len2);
    SplitPays(built, job, t, pool);
    return Some(job);
  }

  lemma SplitPays(built: Coinbase.BuildResult, job: Coinbase.Job, t: Template, pool: Pool)
    requires Coinbase.InputsFit(t.reward, pool.address, t.commitment) && pool.address.Pays? && !t.commitment.BadHex?
    requires Coinbase.HasRegion(built, pool.len1 + pool.len2)
    requires job == Coinbase.SplitJob(built.bytes, built.offset, pool.len1, pool.len2)
    ensures Splits(job)
    ensures PaysFor(job, t, pool) <==>
      Coinbase.IsTemplate(built, t.height, pool.tag, pool.len1 + pool.len2, Coinbase.OutputBytes(t.reward, pool.address, t.commitment))
  {
    assert built == Coinbase.Built(job.template, job.offset);
  }

  /** `build_job`: the job describes its template, or the build fails for one of the
      reasons a template can be unusable. Its coinbase is the intended one exactly when
      the height push does not spell the sentinel. */
  method BuildJob(dsha: Hasher, t: Template, pool: Pool) returns (r: JobResult)
    requires t.height <= U64_MAX && Coinbase.InputsFit(t.reward, pool.address, t.commitment) && ConfigOk(pool)
    requires Header.U32(t.bits)
    ensures r.Made? ==> Describes(dsha, r.job, t)
    ensures r.Made? ==> (PaysFor(r.job.coinbase, t, pool) <==> !Coinbase.SpellsSentinel(Bip34.HeightPush(t.height)))
    ensures r.Made? <==>
      && pool.address.Pays? && !t.commitment.BadHex? && (forall i :: 0 <= i < |t.txids| ==> |t.txids[i]| == 32)
      && |t.prevHash| == 32 && !TooWide(t.bits)
  {
    var cb := BuildCoinbaseJob(t, pool);
    if cb.None? {
      return Failed(BadCoinbase);
    }
    if !WellFormedTxids(t.txids) {
      return Failed(MalformedTxid);
    }
    var branch := ComputeMerkleBranchRaw(dsha, Internal(t.txids));
    var prevHash := Header.StratumPrevHash(t.prevHash);
    if prevHash.None? {
      return Failed(BadPrevHash);
    }
    var target := CompactToTarget(t.bits);
    if target.Overflow? {
      return Failed(TargetOverflow);
    }
    ghost var sign := CompactExists(t.bits);
    assert Expands(t.bits, target.target);
    return Made(Job(cb.value, branch, prevHash.value, t.version, t.bits, t.curTime, t.minTime, target.target, t.transactions));
  }

  // ----- Validation -----

  datatype Params = Params(extranonce2: seq<byte>, ntime: nat, nonce: nat, versionBits: Option<Word>, mask: Option<Word>)

  datatype Verdict =
    | StaleJob
    | TimeOutOfRange
    | BadVersionBits
    | LowDifficulty
    | Valid(assignedDifficulty: nat, hashDifficulty: int, hash: Hash)
    | Block(hashDifficulty: int, block: seq<byte>, hash: Hash)

  /** `check_ntime`: consensus floor, two hours past the template at most. */
  predicate TimeOk(ntime: nat, minTime: nat, curTime: nat) {
    minTime <= ntime <= (if curTime + 7200 < U32_MAX then curTime + 7200 else U32_MAX)
  }

  /** The coinbase a submission stands for; widths that do not add up leave the
      zeroed template. */
  function Spliced(cb: Coinbase.Job, en1: seq<byte>, en2: seq<byte>): seq<byte> {
    if |en1| + |en2| == cb.len1 + cb.len2 then cb.coinbase1 + (en1 + en2 + cb.coinbase2) else cb.template
  }

  /** The header the submission stands for: on the template's previous block, over a
      coinbase and every transaction of the template. */
  function HeaderFields(dsha: Hasher, t: Template, coinbase: seq<byte>, version: nat, p: Params): Header.Fields {
    Header.Fields(version, Reverse(t.prevHash), MerkleRoot(dsha, [dsha(coinbase)] + Internal(t.txids)),
                  p.ntime, t.bits, p.nonce)
  }

  ghost predicate IsHashOf(dsha: Hasher, hash: Hash, fields: Header.Fields) {
    exists h: seq<byte> :: |h| == 80 && Header.ParseHeader(h) == fields && hash == dsha(h)
  }

  /** A block a node reads as that header, the right transaction count, the coinbase
      and the template's transactions. */
  ghost predicate IsBlock(block: seq<byte>, fields: Header.Fields, coinbase: seq<byte>, txs: seq<seq<byte>>) {
    && |block| >= 80 && Header.ParseHeader(block[..80]) == fields
    && Varint.DecodeVarint(block[80..]) == Varint.Value(1 + |txs|, coinbase + Header.Concat(txs))
  }

  /** What the verdict on a hashed header must be: the network's target decides first,
      then the share's. */
  ghost predicate Judges(v: Verdict, dsha: Hasher, t: Template, target: seq<byte>, difficulty: nat, fields: Header.Fields, coinbase: seq<byte>) {
    match v
    case Block(d, block, hash) =>
      && |hash| == 32 && IsHashOf(dsha, hash, fields) && LeNat(hash) <= BeNat(target)
      && d == HashDifficulty.DifficultyOf(Reverse(hash)) && IsBlock(block, fields, coinbase, t.transactions)
    case Valid(claimed, d, hash) =>
      && |hash| == 32 && IsHashOf(dsha, hash, fields) && LeNat(hash) > BeNat(target)
      && LeNat(hash) * Effective(difficulty) <= Diff1()
      && claimed == difficulty && d == HashDifficulty.DifficultyOf(Reverse(hash))
    case LowDifficulty =>
      exists hash: Hash ::
        && |hash| == 32 && IsHashOf(dsha, hash, fields)
        && LeNat(hash) > BeNat(target) && LeNat(hash) * Effective(difficulty) > Diff1()
    case _ => false
  }

  /** `validate_share_no_dedup`, on a job that describes template `t`. */
  method ValidateShare(dsha: Hasher, p: Params, job: Job, superseded: bool, en1: seq<byte>, difficulty: nat, ghost t: Template)
    returns (v: Verdict)
    requires Describes(dsha, job, t) && difficulty <= U64_MAX && 1 + |t.transactions| <= U64_MAX
    requires forall x: seq<byte> :: |dsha(x)| == 32
    requires Header.U32(p.ntime) && Header.U32(p.nonce) && Header.U32(t.bits)
    ensures v.StaleJob? <==> superseded
    ensures v.TimeOutOfRange? <==> !superseded && (p.ntime < t.minTime || p.ntime > t.curTime + 7200)
    ensures v.BadVersionBits? <==>
      !superseded && t.minTime <= p.ntime <= t.curTime + 7200 && Header.RollsTooFar(p.versionBits, p.mask)
    ensures !v.StaleJob? && !v.TimeOutOfRange? && !v.BadVersionBits? ==>
      exists version: nat ::
        && Header.IsRolled(version, t.version, p.versionBits, p.mask)
        && var coinbase := Spliced(job.coinbase, en1, p.extranonce2);
           Judges(v, dsha, t, job.networkTarget, difficulty, HeaderFields(dsha, t, coinbase, version, p), coinbase)
  {
    if superseded {
      return StaleJob;
    }
    if !TimeOk(p.ntime, job.minTime, job.curTime) {
      return TimeOutOfRange;
    }
    var coinbase := Coinbase.AssembleCoinbase(job.coinbase, en1, p.extranonce2);
    var root := MerkleRootFromBranch(dsha, coinbase, job.branch);
    var version := Header.ResolveVersion(job.version, p.versionBits, p.mask);
    Header.VersionRolls(job.version, p.versionBits, p.mask);
    if version.None? {
      return BadVersionBits;
    }
    v := Judge(dsha, p, job, difficulty, coinbase, root, Header.Number(version.value), t);
  }

  lemma {:induction false} ClimbLength(dsha: Hasher, hash: Hash, branch: seq<Hash>)
    requires |hash| == 32 && forall x: seq<byte> :: |dsha(x)| == 32
    ensures |Climb(dsha, hash, branch)| == 32
  {
    if branch != [] {
      ClimbLength(dsha, hash, branch[..|branch| - 1]);
    }
  }

  /** Steps 7 to 10: header, hash and both targets. */
  method Judge(dsha: Hasher, p: Params, job: Job, difficulty: nat, coinbase: seq<byte>, root: Hash, version: nat, ghost t: Template)
    returns (v: Verdict)
    requires Describes(dsha, job, t) && difficulty <= U64_MAX && 1 + |t.transactions| <= U64_MAX
    requires forall x: seq<byte> :: |dsha(x)| == 32
    requires Header.U32(p.ntime) && Header.U32(p.nonce) && Header.U32(t.bits) && Header.U32(version)
    requires root == Climb(dsha, dsha(coinbase), job.branch)
    ensures Judges(v, dsha, t, job.networkTarget, difficulty, HeaderFields(dsha, t, coinbase, version, p), coinbase)
  {
    ghost var fields := HeaderFields(dsha, t, coinbase, version, p);
    var header := MakeHeader(dsha, p, job, coinbase, root, version, t);
    var hash := dsha(header);
    assert IsHashOf(dsha, hash, fields);
    v := Compare(header, hash, job, difficulty, coinbase);
  }

  method MakeHeader(ghost dsha: Hasher, p: Params, job: Job, ghost coinbase: seq<byte>, root: Hash, version: nat, ghost t: Template)
    returns (header: seq<byte>)
    requires Describes(dsha, job, t) && forall x: seq<byte> :: |dsha(x)| == 32
    requires Header.U32(p.ntime) && Header.U32(p.nonce) && Header.U32(t.bits) && Header.U32(version)
    requires root == Climb(dsha, dsha(coinbase), job.branch)
    ensures |header| == 80 && Header.ParseHeader(header) == HeaderFields(dsha, t, coinbase, version, p)
  {
    ClimbLength(dsha, dsha(coinbase), job.branch);
    header := Header.BuildHeader(version, job.prevHash, root, p.ntime, job.bits, p.nonce);
  }

  /** Steps 9 and 10: the network's target, then the share's. */
  method Compare(header: seq<byte>, hash: Hash, job: Job, difficulty: nat, coinbase: seq<byte>) returns (v: Verdict)
    requires |header| == 80 && |hash| == 32 && |job.networkTarget| == 32 && difficulty <= U64_MAX
    requires 1 + |job.transactions| <= U64_MAX
    ensures v.Block? <==> LeNat(hash) <= BeNat(job.networkTarget)
    ensures v.Valid? <==> LeNat(hash) > BeNat(job.networkTarget) && LeNat(hash) * Effective(difficulty) <= Diff1()
    ensures v.LowDifficulty? <==> !v.Block? && !v.Valid?
    ensures v.Valid? ==> v == Valid(difficulty, HashDifficulty.DifficultyOf(Reverse(hash)), hash)
    ensures v.Block? ==>
      && v.hash == hash && v.hashDifficulty == HashDifficulty.DifficultyOf(Reverse(hash))
      && IsBlock(v.block, Header.ParseHeader(header), coinbase, job.transactions)
  {
    var hashDifficulty := HashDifficulty.HashToDifficulty(hash);
    MeetsTargetIsNumeric(hash, job.networkTarget);
    if MeetsTarget(hash, job.networkTarget) {
      var block := Header.AssembleBlock(header, coinbase, job.transactions);
      return Block(hashDifficulty, block, hash);
    }
    var ok := MeetsDifficulty(hash, difficulty);
    if !ok {
      return LowDifficulty;
    }
    return Valid(difficulty, hashDifficulty, hash);
  }

  // ----- From template to block -----

  lemma SplicedBytes(cb: Coinbase.Job, en1: seq<byte>, en2: seq<byte>)
    requires Splits(cb) && |en1| + |en2| == cb.len1 + cb.len2
    ensures Spliced(cb, en1, en2)
         == cb.template[..cb.offset] + (en1 + en2 + cb.template[cb.offset + cb.len1 + cb.len2..])
  {
  }

  /** A submission that fills the reserved width stands for the coinbase that pays the
      pool's address at the template's height. */
  lemma SplicedPays(cb: Coinbase.Job, t: Template, pool: Pool, en1: seq<byte>, en2: seq<byte>)
    requires Splits(cb) && PaysFor(cb, t, pool) && |en1| + |en2| == pool.len1 + pool.len2
    ensures Coinbase.IsCoinbase(Spliced(cb, en1, en2), t.height, pool.tag, en1 + en2,
                                Coinbase.OutputBytes(t.reward, pool.address, t.commitment))
  {
    SplicedIntended(cb, t.height, pool.tag, pool.len1, pool.len2,
                    Coinbase.OutputBytes(t.reward, pool.address, t.commitment), en1, en2);
  }

  lemma SplicedIntended(cb: Coinbase.Job, height: nat, tag: seq<byte>, len1: nat, len2: nat, outputs: seq<byte>,
                        en1: seq<byte>, en2: seq<byte>)
    requires Splits(cb) && cb.len1 == len1 && cb.len2 == len2 && |en1| + |en2| == len1 + len2
    requires Coinbase.IsTemplate(Coinbase.Built(cb.template, cb.offset), height, tag, len1 + len2, outputs)
    ensures Coinbase.IsCoinbase(Spliced(cb, en1, en2), height, tag, en1 + en2, outputs)
  {
    SplicedBytes(cb, en1, en2);
    Coinbase.SplicedIsCoinbase(Coinbase.Built(cb.template, cb.offset), height, tag, len1 + len2, outputs, en1 + en2,
                               Spliced(cb, en1, en2));
  }

  /** A block for the template, found with extranonce `e`: one coinbase, for the
      template's height and paying the reward to the pool's address, is both what the
      header commits to and what a node reads from the block, and the header's hash
      meets the target of the template's bits. */
  ghost predicate IsPoolBlock(dsha: Hasher, block: seq<byte>, hash: Hash, t: Template, pool: Pool, p: Params, e: seq<byte>)
    requires Coinbase.InputsFit(t.reward, pool.address, t.commitment) && pool.address.Pays? && !t.commitment.BadHex?
  {
    exists coinbase: seq<byte>, version: nat, target: seq<byte> ::
      && Header.IsRolled(version, t.version, p.versionBits, p.mask)
      && Coinbase.Reads(coinbase, t.height, pool.tag, e, t.reward, pool.address, t.commitment)
      && IsBlock(block, HeaderFields(dsha, t, coinbase, version, p), coinbase, t.transactions)
      && IsHashOf(dsha, hash, HeaderFields(dsha, t, coinbase, version, p))
      && Expands(t.bits, target) && LeNat(hash) <= BeNat(target)
  }

  lemma FoundPoolBlock(dsha: Hasher, v: Verdict, job: Job, t: Template, pool: Pool, p: Params, en1: seq<byte>, difficulty: nat,
                       version: nat)
    requires t.height <= U64_MAX && Splits(job.coinbase) && PaysFor(job.coinbase, t, pool)
    requires |en1| + |p.extranonce2| == pool.len1 + pool.len2
    requires v.Block? && Expands(t.bits, job.networkTarget) && Header.IsRolled(version, t.version, p.versionBits, p.mask)
    requires var coinbase := Spliced(job.coinbase, en1, p.extranonce2);
             Judges(v, dsha, t, job.networkTarget, difficulty, HeaderFields(dsha, t, coinbase, version, p), coinbase)
    ensures IsPoolBlock(dsha, v.block, v.hash, t, pool, p, en1 + p.extranonce2)
  {
    var coinbase := Spliced(job.coinbase, en1, p.extranonce2);
    SplicedPays(job.coinbase, t, pool, en1, p.extranonce2);
    Coinbase.CoinbaseReads(coinbase, t.height, pool.tag, en1 + p.extranonce2, t.reward, pool.address, t.commitment);
  }

  /** Template, job, share, block, for every height whose push does not spell the
      sentinel; `Coinbase.RealHeightsPass` says that of all below 2^31. No verdict is
      given exactly when no job can be made of the template. */
  method MineTemplate(dsha: Hasher, t: Template, pool: Pool, p: Params, superseded: bool, en1: seq<byte>, difficulty: nat)
    returns (v: Option<Verdict>)
    requires t.height <= U64_MAX && !Coinbase.SpellsSentinel(Bip34.HeightPush(t.height))
    requires Coinbase.InputsFit(t.reward, pool.address, t.commitment) && ConfigOk(pool)
    requires difficulty <= U64_MAX && 1 + |t.transactions| <= U64_MAX && forall x: seq<byte> :: |dsha(x)| == 32
    requires Header.U32(p.ntime) && Header.U32(p.nonce) && Header.U32(t.bits)
    requires |en1| + |p.extranonce2| == pool.len1 + pool.len2
    ensures v.Some? <==>
      && pool.address.Pays? && !t.commitment.BadHex? && (forall i :: 0 <= i < |t.txids| ==> |t.txids[i]| == 32)
      && |t.prevHash| == 32 && !TooWide(t.bits)
    ensures v.Some? && v.value.Block? ==> IsPoolBlock(dsha, v.value.block, v.value.hash, t, pool, p, en1 + p.extranonce2)
  {
    var r := BuildJob(dsha, t, pool);
    if r.Failed? {
      return None;
    }
    var verdict := ValidateShare(dsha, p, r.job, superseded, en1, difficulty, t);
    if verdict.Block? {
      ghost var coinbase := Spliced(r.job.coinbase, en1, p.extranonce2);
      ghost var version: nat :| && Header.IsRolled(version, t.version, p.versionBits, p.mask)
        && Judges(verdict, dsha, t, r.job.networkTarget, difficulty, HeaderFields(dsha, t, coinbase, version, p), coinbase);
      FoundPoolBlock(dsha, verdict, r.job, t, pool, p, en1, difficulty, version);
    }
    return Some(verdict);
  }
}
