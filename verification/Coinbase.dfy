/** Coinbase construction (src/bitcoin/template.rs).

    The pool serializes a coinbase with a four-byte sentinel where the extranonce
    goes and then searches the bytes for it. That finds the right place only if
    no earlier byte string matches; the tag being UTF-8 and the height push ending
    in a byte below 0x80 are what rule that out. */
module Coinbase {
  import opened Bytes
  import opened Wrappers
  import opened Bip34
  import opened Varint
  import opened Transaction

  const SENTINEL: seq<byte> := [0xDE, 0xAD, 0xBE, 0xEF]

  // ----- UTF-8, as Rust's `str` guarantees it -----

  predicate Continues(b: byte) { 0x80 <= b <= 0xBF }

  /** Length of the well-formed character at the front, 0 if there is none. */
  function CharLength(s: seq<byte>): (n: nat)
    requires s != []
    ensures n <= |s|
  {
    if s[0] < 0x80 then 1
    else if 0xC2 <= s[0] <= 0xDF && |s| >= 2 && Continues(s[1]) then 2
    else if 0xE0 <= s[0] <= 0xEF && |s| >= 3 && Continues(s[1]) && Continues(s[2])
         && (s[0] == 0xE0 ==> s[1] >= 0xA0) && (s[0] == 0xED ==> s[1] <= 0x9F) then 3
    else if 0xF0 <= s[0] <= 0xF4 && |s| >= 4 && Continues(s[1]) && Continues(s[2]) && Continues(s[3])
         && (s[0] == 0xF0 ==> s[1] >= 0x90) && (s[0] == 0xF4 ==> s[1] <= 0x8F) then 4
    else 0
  }

  predicate ValidUtf8(s: seq<byte>)
    decreases |s|
  {
    s == [] || (CharLength(s) > 0 && ValidUtf8(s[CharLength(s)..]))
  }

  /** 0xDE opens a two-byte character, so a third continuation byte cannot follow. */
  lemma {:induction false} NoSentinelInText(s: seq<byte>, i: nat)
    requires ValidUtf8(s) && i + 3 <= |s|
    ensures !(s[i] == 0xDE && s[i + 1] == 0xAD && s[i + 2] == 0xBE)
    decreases |s|
  {
    var n := CharLength(s);
    if i >= n {
      NoSentinelInText(s[n..], i - n);
    } else if s[i] == 0xDE && s[i + 1] == 0xAD {
      assert i == 0 && n == 2;
      assert s[2..] != [] && s[2..][0] == s[2];
    }
  }

  // ----- Searching -----

  predicate MatchesAt(haystack: seq<byte>, needle: seq<byte>, i: nat) {
    i + |needle| <= |haystack| && haystack[i..i + |needle|] == needle
  }

  datatype Found = NotFound | At(index: nat)

  /** `find_bytes`: the first window equal to the needle. */
  function FindBytes(haystack: seq<byte>, needle: seq<byte>): (r: Found)
    ensures r.At? ==> MatchesAt(haystack, needle, r.index)
    ensures r.At? ==> forall i: nat :: i < r.index ==> !MatchesAt(haystack, needle, i)
    ensures r.NotFound? ==> forall i: nat :: !MatchesAt(haystack, needle, i)
  {
    if |haystack| < |needle| then NotFound
    else if haystack[..|needle|] == needle then At(0)
    else if haystack == [] then NotFound
    else
      MatchShifts(haystack, needle);
      match FindBytes(haystack[1..], needle)
      case NotFound => NotFound
      case At(k) => At(k + 1)
  }

  lemma MatchShifts(haystack: seq<byte>, needle: seq<byte>)
    requires haystack != []
    ensures forall i: nat :: i > 0 ==> (MatchesAt(haystack, needle, i) <==> MatchesAt(haystack[1..], needle, i - 1))
  {
    forall i: nat | i > 0
      ensures MatchesAt(haystack, needle, i) <==> MatchesAt(haystack[1..], needle, i - 1)
    {
      if i + |needle| <= |haystack| {
        assert haystack[1..][i - 1..i - 1 + |needle|] == haystack[i..i + |needle|];
      }
    }
  }

  /** The four bytes of the sentinel, one by one. */
  predicate SentinelAt(s: seq<byte>, i: nat) {
    i + 4 <= |s| && s[i] == 0xDE && s[i + 1] == 0xAD && s[i + 2] == 0xBE && s[i + 3] == 0xEF
  }

  ghost predicate SpellsSentinel(s: seq<byte>) {
    exists i: nat :: SentinelAt(s, i)
  }

  /** Where the search stops. */
  ghost predicate FirstAt(s: seq<byte>, k: nat) {
    SentinelAt(s, k) && forall i: nat :: i < k ==> !SentinelAt(s, i)
  }

  lemma MatchIsSentinel(s: seq<byte>, i: nat)
    ensures MatchesAt(s, SENTINEL, i) <==> SentinelAt(s, i)
  {
    if i + 4 <= |s| {
      var w := s[i..i + 4];
      assert w[0] == s[i] && w[1] == s[i + 1] && w[2] == s[i + 2] && w[3] == s[i + 3];
    }
  }

  lemma FindsFirst(s: seq<byte>, k: nat)
    ensures FindBytes(s, SENTINEL) == At(k) <==> FirstAt(s, k)
  {
    var r := FindBytes(s, SENTINEL);
    forall i: nat ensures MatchesAt(s, SENTINEL, i) <==> SentinelAt(s, i) { MatchIsSentinel(s, i); }
    if r.At? && FirstAt(s, k) {
      assert MatchesAt(s, SENTINEL, r.index);
      assert MatchesAt(s, SENTINEL, k);
    }
  }

  /** Four regions of the serialized coinbase up to the sentinel: bytes that
      cannot open one, the height push, the tag, the sentinel. */
  ghost predicate Regions(s: seq<byte>, a: nat, b: nat, c: nat) {
    && a < b <= c && c + 4 <= |s|
    && (forall k :: 0 <= k < a ==> s[k] != 0xDE)
    && s[b - 1] < 0x80
    && ValidUtf8(s[b..c])
    && SentinelAt(s, c)
  }

  /** A match starting inside the height push would have to lie in it entirely;
      one starting in the tag cannot be whole, and the sentinel that follows the
      tag does not overlap itself. */
  lemma NoEarlierMatch(s: seq<byte>, a: nat, b: nat, c: nat, i: nat)
    requires Regions(s, a, b, c) && !SpellsSentinel(s[a..b]) && i < c
    ensures !SentinelAt(s, i)
  {
    if a <= i < b && i + 4 <= b {
      assert !SentinelAt(s[a..b], i - a);
    } else if b <= i && i + 3 <= c {
      NoSentinelInText(s[b..c], i - b);
    }
  }

  /** The search lands right after height push and tag exactly when the height
      push does not itself spell the sentinel. */
  lemma SearchLands(s: seq<byte>, a: nat, b: nat, c: nat)
    requires Regions(s, a, b, c)
    ensures FirstAt(s, c) <==> !SpellsSentinel(s[a..b])
  {
    if SpellsSentinel(s[a..b]) {
      var k: nat :| SentinelAt(s[a..b], k);
      assert SentinelAt(s, a + k);
    } else {
      forall i: nat | i < c ensures !SentinelAt(s, i) { NoEarlierMatch(s, a, b, c, i); }
    }
  }

  // ----- The serialized transaction -----

  ghost predicate WellFormed(o: TxOut) { o.value <= U64_MAX && |o.script| <= U64_MAX }

  function OutBytes(o: TxOut): seq<byte>
    requires o.value <= U64_MAX && |o.script| <= U64_MAX
  {
    Widths();
    LeFixed(o.value, 8) + EncodeVarint(|o.script|) + o.script
  }

  /** Reward output, then the witness commitment when the template has one. */
  function Outputs(reward: TxOut, commitment: seq<TxOut>): seq<byte>
    requires WellFormed(reward) && |commitment| <= 1 && (commitment != [] ==> WellFormed(commitment[0]))
  {
    EncodeVarint(1 + |commitment|) + OutBytes(reward)
    + (if commitment == [] then [] else OutBytes(commitment[0]))
  }

  /** Version 1, one input with a null outpoint: the first 41 bytes. */
  function TxHead(): (h: seq<byte>)
    ensures |h| == 41
    ensures forall b :: b in h ==> b != 0xDE
  {
    [1, 0, 0, 0] + [1] + Zeros(32) + [0xff, 0xff, 0xff, 0xff]
  }

  function TxTail(outputs: seq<byte>): seq<byte> {
    [0xff, 0xff, 0xff, 0xff] + outputs + Zeros(4)
  }

  /** The serialization of a transaction with one null input and no witness. */
  function Serialize(scriptSig: seq<byte>, outputs: seq<byte>): seq<byte>
    requires |scriptSig| <= U64_MAX
  {
    TxHead() + EncodeVarint(|scriptSig|) + scriptSig + TxTail(outputs)
  }

  lemma PushEndsLow(height: nat)
    requires height <= U64_MAX
    ensures HeightPush(height) != [] && HeightPush(height)[|HeightPush(height)| - 1] < 0x80
  {
    if height > 16 {
      PayloadValue(height);
    }
  }

  lemma FourBytesEndLow(height: nat)
    requires height < 0x8000_0000
    ensures Pow256(4) == 0x1_0000_0000 && LeFixed(height, 4)[3] < 0x80
  {
    Widths();
    var c := LeFixed(height, 4);
    assert c == c[..3] + [c[3]];
    LeNatConcat(c[..3], [c[3]]);
    assert LeNat([c[3]]) == c[3];
    assert Pow256(3) == 0x100_0000;
  }

  /** Every height below 2^31 passes. */
  lemma RealHeightsPass(height: nat)
    requires height < 0x8000_0000
    ensures !SpellsSentinel(HeightPush(height))
  {
    var push := HeightPush(height);
    PushEndsLow(height);
    if height > 16 {
      FourBytesEndLow(height);
      PayloadMinimal(height, LeFixed(height, 4));
      PayloadValue(height);
    }
    forall i: nat
      ensures !SentinelAt(push, i)
    {
      assert i == 0 || i + 4 == |push| || i + 4 > |push|;
    }
  }

  lemma FourLeBytes(h: nat, a: byte, b: byte, c: byte, d: byte)
    requires d > 0 && h == a + 256 * (b + 256 * (c + 256 * d))
    ensures LeBytes(h) == [a, b, c, d]
  {
    var (x, y) := (b + 256 * (c + 256 * d), c + 256 * d);
    assert h % 256 == a && h / 256 == x;
    assert x % 256 == b && x / 256 == y;
    assert y % 256 == c && y / 256 == d;
    assert LeBytes(d) == [d];
    assert LeBytes(y) == [c] + LeBytes(d);
    assert LeBytes(x) == [b] + LeBytes(y);
  }

  /** A height whose four payload bytes are the sentinel. */
  lemma SentinelHeight()
    ensures SpellsSentinel(HeightPush(0xEFBE_ADDE))
  {
    var h := 0xEFBE_ADDE;
    FourLeBytes(h, 0xDE, 0xAD, 0xBE, 0xEF);
    var push := HeightPush(h);
    assert push == [5] + (SENTINEL + [0]);
    assert SentinelAt(push, 1);
  }

  // ----- Building the template -----

  /** What stays of the sentinel when fewer than four bytes are reserved. */
  function Leftover(total: nat): seq<byte> {
    if total < 4 then SENTINEL[total..] else []
  }

  /** The script a coinbase carrying extranonce `e` has. */
  function ScriptSig(height: nat, tag: seq<byte>, e: seq<byte>): seq<byte> {
    HeightPush(height) + tag + e + Leftover(|e|)
  }

  /** The script length still fits one byte; what the config rule leaves for any height. */
  ghost predicate Fits(height: nat, tag: seq<byte>, total: nat) { ScriptLen(height, tag, total) <= 105 }

  function ScriptLen(height: nat, tag: seq<byte>, total: nat): nat {
    |HeightPush(height)| + |tag| + if total < 4 then 4 else total
  }

  /** Everything before the script: 41 fixed bytes and the script length. */
  function BeforeScript(scriptLen: nat): (h: seq<byte>)
    requires scriptLen <= 105
    ensures |h| == 42 && forall b :: b in h ==> b != 0xDE
  {
    TxHead() + [scriptLen]
  }

  /** Everything before the extranonce region. */
  function Lead(height: nat, tag: seq<byte>, total: nat): seq<byte>
    requires Fits(height, tag, total)
  {
    BeforeScript(ScriptLen(height, tag, total)) + (HeightPush(height) + tag)
  }

  lemma ScriptLength(height: nat, tag: seq<byte>, e: seq<byte>)
    ensures |ScriptSig(height, tag, e)| == ScriptLen(height, tag, |e|)
  {
  }

  /** What the config rule is for: consensus allows a coinbase script 2 to 100 bytes. */
  lemma ScriptWithinConsensus(height: nat, tag: seq<byte>, e: seq<byte>)
    requires height < 0x8000_0000 && 5 + |tag| + (if |e| < 4 then 4 else |e|) <= 100
    ensures 2 <= |ScriptSig(height, tag, e)| <= 100
  {
    ScriptLength(height, tag, e);
    if height > 16 {
      FourBytesEndLow(height);
      PayloadMinimal(height, LeFixed(height, 4));
      PayloadValue(height);
    }
  }

  /** A script of three parts inside its transaction. */
  lemma SerializeParts(script: seq<byte>, n: nat, a: seq<byte>, b: seq<byte>, c: seq<byte>, outputs: seq<byte>)
    requires script == a + b + c && |script| == n <= 105
    ensures Serialize(script, outputs) == (BeforeScript(n) + a) + (b + (c + TxTail(outputs)))
  {
    assert EncodeVarint(n) == [n];
    Regroup(BeforeScript(n), a, b, c, TxTail(outputs));
  }

  lemma SerializeTwo(script: seq<byte>, n: nat, a: seq<byte>, b: seq<byte>, outputs: seq<byte>)
    requires script == a + b && |script| == n <= 105
    ensures Serialize(script, outputs) == (BeforeScript(n) + a) + (b + TxTail(outputs))
  {
    assert EncodeVarint(n) == [n];
    RegroupTwo(BeforeScript(n), a, b, TxTail(outputs));
  }

  lemma RegroupTwo(h: seq<byte>, a: seq<byte>, b: seq<byte>, t: seq<byte>)
    ensures h + (a + b) + t == (h + a) + (b + t)
  {
    assert h + (a + b) == h + a + b;
  }

  lemma Layout(height: nat, tag: seq<byte>, e: seq<byte>, outputs: seq<byte>)
    requires Fits(height, tag, |e|)
    ensures |ScriptSig(height, tag, e)| <= 105
    ensures Serialize(ScriptSig(height, tag, e), outputs)
         == Lead(height, tag, |e|) + (e + (Leftover(|e|) + TxTail(outputs)))
  {
    ScriptLength(height, tag, e);
    SerializeParts(ScriptSig(height, tag, e), ScriptLen(height, tag, |e|), HeightPush(height) + tag, e, Leftover(|e|), outputs);
  }

  lemma Regroup(a: seq<byte>, b: seq<byte>, c: seq<byte>, d: seq<byte>, e: seq<byte>)
    ensures a + (b + c + d) + e == (a + b) + (c + (d + e))
  {
    assert a + (b + c + d) == a + b + c + d;
    assert a + b + c + d + e == a + b + c + (d + e);
    assert (a + b) + c + (d + e) == (a + b) + (c + (d + e));
  }

  datatype Address = Unparsed | Pays(script: seq<byte>)
  datatype Commitment = Absent | BadHex | Commits(script: seq<byte>)
  datatype BuildResult = Built(bytes: seq<byte>, offset: nat) | BadAddress | BadCommitment | NoSentinel

  ghost predicate InputsFit(reward: nat, address: Address, commitment: Commitment) {
    && reward <= U64_MAX
    && (address.Pays? ==> |address.script| <= U64_MAX)
    && (commitment.Commits? ==> |commitment.script| <= U64_MAX)
  }

  function OutputBytes(reward: nat, address: Address, commitment: Commitment): seq<byte>
    requires InputsFit(reward, address, commitment) && address.Pays? && !commitment.BadHex?
  {
    Outputs(TxOut(reward, address.script), if commitment.Absent? then [] else [TxOut(0, commitment.script)])
  }

  /** What stands in for the extranonce: the sentinel, then zeros up to the width. */
  function Mark(total: nat): (m: seq<byte>)
    ensures |m| == (if total < 4 then 4 else total) && SENTINEL <= m
  {
    SENTINEL + Zeros(if total < 4 then 0 else total - 4)
  }

  /** The script while it still holds the sentinel. */
  function MarkedScript(height: nat, tag: seq<byte>, total: nat): seq<byte> {
    HeightPush(height) + tag + Mark(total)
  }

  method ZeroRegion(s: seq<byte>, offset: nat, total: nat) returns (r: seq<byte>)
    requires offset + total <= |s|
    ensures r == s[..offset] + (Zeros(total) + s[offset + total..])
  {
    var a := new byte[|s|](i requires 0 <= i < |s| => s[i]);
    for i := offset to offset + (if total < a.Length - offset then total else a.Length - offset)
      invariant forall k :: offset <= k < i ==> a[k] == 0
      invariant forall k :: 0 <= k < offset || i <= k < |s| ==> a[k] == s[k]
    {
      a[i] := 0;
    }
    r := a[..];
  }

  lemma MarkedLayout(height: nat, tag: seq<byte>, total: nat, outputs: seq<byte>)
    requires Fits(height, tag, total)
    ensures |MarkedScript(height, tag, total)| <= 105
    ensures Serialize(MarkedScript(height, tag, total), outputs)
         == Lead(height, tag, total)
            + (Mark(total) + TxTail(outputs))
  {
    SerializeTwo(MarkedScript(height, tag, total), ScriptLen(height, tag, total), HeightPush(height) + tag, Mark(total), outputs);
  }

  /** Past the region, the marked and the finished transaction agree. */
  lemma PastRegion(total: nat, tail: seq<byte>)
    ensures |Mark(total)| >= total
    ensures (Mark(total) + tail)[total..] == Leftover(total) + tail
  {
  }

  lemma DropPast(a: seq<byte>, b: seq<byte>, n: nat)
    requires n <= |b|
    ensures (a + b)[..|a|] == a && (a + b)[|a| + n..] == b[n..]
  {
  }

  /** Cutting a concatenation back into its parts. */
  lemma CutParts(head: seq<byte>, push: seq<byte>, tag: seq<byte>, rest: seq<byte>, s: seq<byte>)
    requires s == head + (push + tag) + rest
    ensures s[..|head|] == head
    ensures s[|head|..|head| + |push|] == push
    ensures s[|head| + |push|..|head| + |push| + |tag|] == tag
    ensures s[|head| + |push| + |tag|..] == rest
  {
  }

  lemma HeadPart(head: seq<byte>, s: seq<byte>)
    requires |head| <= |s| && s[..|head|] == head && forall b :: b in head ==> b != 0xDE
    ensures forall k :: 0 <= k < |head| ==> s[k] != 0xDE
  {
    forall k | 0 <= k < |head| ensures s[k] != 0xDE {
      assert s[k] == head[k];
      assert head[k] in head;
    }
  }

  lemma SentinelShift(s: seq<byte>, c: nat, rest: seq<byte>)
    requires c <= |s| && s[c..] == rest && SentinelAt(rest, 0)
    ensures SentinelAt(s, c)
  {
    assert rest[0] == s[c] && rest[1] == s[c + 1] && rest[2] == s[c + 2] && rest[3] == s[c + 3];
  }

  lemma PartsSearch(head: seq<byte>, push: seq<byte>, tag: seq<byte>, rest: seq<byte>, s: seq<byte>, c: nat)
    requires s == head + (push + tag) + rest && c == |head| + |push| + |tag|
    requires forall b :: b in head ==> b != 0xDE
    requires push != [] && push[|push| - 1] < 0x80 && ValidUtf8(tag) && SentinelAt(rest, 0)
    ensures SentinelAt(s, c)
    ensures FirstAt(s, c) <==> !SpellsSentinel(push)
  {
    CutParts(head, push, tag, rest, s);
    CutSearch(s, head, push, tag, rest, |head|, |head| + |push|, c);
  }

  lemma CutSearch(s: seq<byte>, head: seq<byte>, push: seq<byte>, tag: seq<byte>, rest: seq<byte>, a: nat, b: nat, c: nat)
    requires a < b <= c <= |s| && s[..a] == head && s[a..b] == push && s[b..c] == tag && s[c..] == rest
    requires forall x :: x in head ==> x != 0xDE
    requires push[|push| - 1] < 0x80 && ValidUtf8(tag) && SentinelAt(rest, 0)
    ensures SentinelAt(s, c)
    ensures FirstAt(s, c) <==> !SpellsSentinel(push)
  {
    HeadPart(head, s);
    SentinelShift(s, c, rest);
    assert s[b - 1] == s[a..b][b - 1 - a];
    SearchLands(s, a, b, c);
  }

  lemma MarkedParts(height: nat, tag: seq<byte>, total: nat, outputs: seq<byte>)
    returns (head: seq<byte>, rest: seq<byte>)
    requires Fits(height, tag, total)
    ensures |MarkedScript(height, tag, total)| <= 105
    ensures Serialize(MarkedScript(height, tag, total), outputs) == head + (HeightPush(height) + tag) + rest
    ensures |Lead(height, tag, total)| == |head| + |HeightPush(height)| + |tag|
    ensures (forall b :: b in head ==> b != 0xDE) && SentinelAt(rest, 0)
  {
    var mark := Mark(total);
    head := BeforeScript(ScriptLen(height, tag, total));
    rest := mark + TxTail(outputs);
    MarkedLayout(height, tag, total, outputs);
    MarkOpens(mark, TxTail(outputs));
  }

  lemma MarkOpens(mark: seq<byte>, tail: seq<byte>)
    requires SENTINEL <= mark
    ensures SentinelAt(mark + tail, 0)
  {
    assert mark[0] == SENTINEL[0] && mark[1] == SENTINEL[1] && mark[2] == SENTINEL[2] && mark[3] == SENTINEL[3];
  }

  /** The search over the marked transaction stops at the extranonce region
      exactly when the height push does not spell the sentinel. */
  lemma MarkedSearch(height: nat, tag: seq<byte>, total: nat, outputs: seq<byte>)
    requires height <= U64_MAX && ValidUtf8(tag) && Fits(height, tag, total)
    ensures |MarkedScript(height, tag, total)| <= 105
    ensures SentinelAt(Serialize(MarkedScript(height, tag, total), outputs), |Lead(height, tag, total)|)
    ensures FirstAt(Serialize(MarkedScript(height, tag, total), outputs), |Lead(height, tag, total)|)
       <==> !SpellsSentinel(HeightPush(height))
  {
    var head, rest := MarkedParts(height, tag, total, outputs);
    PushEndsLow(height);
    PartsSearch(head, HeightPush(height), tag, rest,
                Serialize(MarkedScript(height, tag, total), outputs), |Lead(height, tag, total)|);
  }

  lemma ConfigFits(height: nat, tag: seq<byte>, total: nat)
    requires height <= U64_MAX
    requires 5 + |tag| + (if total < 4 then 4 else total) <= 100
    ensures Fits(height, tag, total)
  {
    if height > 16 {
      PayloadValue(height);
    }
  }

  /** The tail of `build_coinbase`: locate the sentinel, clear the region. */
  method LocateAndClear(serialized: seq<byte>, total: nat, ghost at: nat) returns (r: BuildResult)
    ensures SentinelAt(serialized, at) && at + total <= |serialized| ==>
              && r.Built? && FirstAt(serialized, r.offset) && r.offset <= at
              && r.bytes == serialized[..r.offset] + (Zeros(total) + serialized[r.offset + total..])
  {
    MatchIsSentinel(serialized, at);
    var found := FindBytes(serialized, SENTINEL);
    if found.NotFound? {
      return NoSentinel;
    }
    FindsFirst(serialized, found.index);
    var room := if total < |serialized| - found.index then total else |serialized| - found.index;
    var bytes := ZeroRegion(serialized, found.index, room);
    r := Built(bytes, found.index);
  }

  method MarkScript(height: nat, tag: seq<byte>, total: nat) returns (script: seq<byte>)
    requires height <= U64_MAX
    ensures script == MarkedScript(height, tag, total)
  {
    var push := EncodeBip34Height(height);
    script := push + tag + Mark(total);
  }

  /** What a template must be: the transaction with a zero extranonce, and the
      offset of that extranonce. */
  ghost predicate IsTemplate(r: BuildResult, height: nat, tag: seq<byte>, total: nat, outputs: seq<byte>) {
    && Fits(height, tag, total)
    && |ScriptSig(height, tag, Zeros(total))| <= 105
    && r == Built(Serialize(ScriptSig(height, tag, Zeros(total)), outputs), |Lead(height, tag, total)|)
  }

  /** A region of `total` bytes inside the built bytes. */
  predicate HasRegion(r: BuildResult, total: nat) { r.Built? && r.offset + total <= |r.bytes| }

  /** `build_coinbase`, under the config rule that bounds the script. It always finds
      room for the extranonce, and the right room exactly when the height push does not
      spell the sentinel. */
  method BuildCoinbase(height: nat, reward: nat, address: Address, tag: seq<byte>, len1: nat, len2: nat,
                       commitment: Commitment)
    returns (r: BuildResult)
    requires height <= U64_MAX && ValidUtf8(tag) && InputsFit(reward, address, commitment)
    requires 5 + |tag| + (if len1 + len2 < 4 then 4 else len1 + len2) <= 100
    ensures r.BadAddress? <==> address.Unparsed?
    ensures r.BadCommitment? <==> address.Pays? && commitment.BadHex?
    ensures address.Pays? && !commitment.BadHex? ==>
              && HasRegion(r, len1 + len2)
              && (IsTemplate(r, height, tag, len1 + len2, OutputBytes(reward, address, commitment))
                  <==> !SpellsSentinel(HeightPush(height)))
    ensures address.Pays? && !commitment.BadHex? && !SpellsSentinel(HeightPush(height)) ==>
              Reads(r.bytes, height, tag, Zeros(len1 + len2), reward, address, commitment)
  {
    if address.Unparsed? {
      return BadAddress;
    }
    if commitment.BadHex? {
      return BadCommitment;
    }
    var outputs := OutputBytes(reward, address, commitment);
    r := BuildMarked(height, tag, len1 + len2, outputs);
    if IsTemplate(r, height, tag, len1 + len2, outputs) {
      CoinbaseReads(r.bytes, height, tag, Zeros(len1 + len2), reward, address, commitment);
    }
  }

  method BuildMarked(height: nat, tag: seq<byte>, total: nat, outputs: seq<byte>) returns (r: BuildResult)
    requires height <= U64_MAX && ValidUtf8(tag)
    requires 5 + |tag| + (if total < 4 then 4 else total) <= 100
    ensures HasRegion(r, total) && (IsTemplate(r, height, tag, total, outputs) <==> !SpellsSentinel(HeightPush(height)))
  {
    ConfigFits(height, tag, total);
    ghost var at := |Lead(height, tag, total)|;
    ghost var template := MarkedFacts(height, tag, total, outputs, at);
    var script := MarkScript(height, tag, total);
    var serialized := Serialize(script, outputs);
    r := BuildAt(serialized, total, at, template);
    TemplateIff(r, height, tag, total, outputs, at, template);
  }

  /** `template` is `s` with the region at `at`, where a sentinel is, cleared. */
  ghost predicate Clears(s: seq<byte>, at: nat, total: nat, template: seq<byte>) {
    SentinelAt(s, at) && at + total <= |s| && template == s[..at] + (Zeros(total) + s[at + total..])
  }

  lemma MarkedFacts(height: nat, tag: seq<byte>, total: nat, outputs: seq<byte>, at: nat) returns (template: seq<byte>)
    requires height <= U64_MAX && ValidUtf8(tag) && Fits(height, tag, total) && at == |Lead(height, tag, total)|
    ensures |MarkedScript(height, tag, total)| <= 105 && |ScriptSig(height, tag, Zeros(total))| <= 105
    ensures template == Serialize(ScriptSig(height, tag, Zeros(total)), outputs)
    ensures Clears(Serialize(MarkedScript(height, tag, total), outputs), at, total, template)
    ensures FirstAt(Serialize(MarkedScript(height, tag, total), outputs), at) <==> !SpellsSentinel(HeightPush(height))
  {
    MarkedSearch(height, tag, total, outputs);
    ZeroedTemplate(height, tag, total, outputs);
    template := Serialize(ScriptSig(height, tag, Zeros(total)), outputs);
  }

  lemma TemplateIff(r: BuildResult, height: nat, tag: seq<byte>, total: nat, outputs: seq<byte>, at: nat, template: seq<byte>)
    requires Fits(height, tag, total) && |ScriptSig(height, tag, Zeros(total))| <= 105 && at == |Lead(height, tag, total)|
    requires template == Serialize(ScriptSig(height, tag, Zeros(total)), outputs)
    ensures IsTemplate(r, height, tag, total, outputs) <==> r == Built(template, at)
  {
  }

  method BuildAt(serialized: seq<byte>, total: nat, ghost at: nat, ghost template: seq<byte>) returns (r: BuildResult)
    requires Clears(serialized, at, total, template)
    ensures HasRegion(r, total) && (r == Built(template, at) <==> FirstAt(serialized, at))
  {
    r := LocateAndClear(serialized, total, at);
    ClearedIff(serialized, template, at, total, r);
  }

  /** Only one place can be first. */
  lemma ClearedIff(s: seq<byte>, template: seq<byte>, at: nat, total: nat, r: BuildResult)
    requires Clears(s, at, total, template)
    requires r.Built? && FirstAt(s, r.offset) && r.offset <= at
    requires r.bytes == s[..r.offset] + (Zeros(total) + s[r.offset + total..])
    ensures r == Built(template, at) <==> FirstAt(s, at)
  {
  }

  lemma ZeroedTemplate(height: nat, tag: seq<byte>, total: nat, outputs: seq<byte>)
    requires Fits(height, tag, total)
    ensures |MarkedScript(height, tag, total)| <= 105 && |ScriptSig(height, tag, Zeros(total))| <= 105
    ensures var s := Serialize(MarkedScript(height, tag, total), outputs);
            var at := |Lead(height, tag, total)|;
            && at + total <= |s|
            && Serialize(ScriptSig(height, tag, Zeros(total)), outputs) == s[..at] + (Zeros(total) + s[at + total..])
  {
    var mark := Mark(total);
    var tail := TxTail(outputs);
    MarkedLayout(height, tag, total, outputs);
    ZeroLayout(height, tag, total, outputs);
    PastRegion(total, tail);
    RegionZeroed(Lead(height, tag, total), mark, Leftover(total), tail, total,
                 Serialize(MarkedScript(height, tag, total), outputs),
                 Serialize(ScriptSig(height, tag, Zeros(total)), outputs));
  }

  lemma RegionZeroed(lead: seq<byte>, mark: seq<byte>, left: seq<byte>, tail: seq<byte>, total: nat, s: seq<byte>, z: seq<byte>)
    requires s == lead + (mark + tail) && z == lead + (Zeros(total) + (left + tail))
    requires |mark| >= total && (mark + tail)[total..] == left + tail
    ensures |lead| + total <= |s| && z == s[..|lead|] + (Zeros(total) + s[|lead| + total..])
  {
    DropPast(lead, mark + tail, total);
  }

  // ----- What a node reads -----

  /** A node reads the bytes as a coinbase for the height: version 1, the one null input
      of a coinbase, the reward to the address, nothing to the commitment when there is
      one, no other output, no lock time; and a script that starts with the height, then
      the tag and the extranonce. */
  ghost predicate Reads(bytes: seq<byte>, height: nat, tag: seq<byte>, e: seq<byte>,
                        reward: nat, address: Address, commitment: Commitment)
    requires address.Pays?
  {
    && ReadTx(bytes).Some?
    && Pays(ReadTx(bytes).value, reward, address, commitment)
    && StartsWithHeight(ReadTx(bytes).value.input.script, height, tag + e)
  }

  ghost predicate Pays(tx: Tx, reward: nat, address: Address, commitment: Commitment)
    requires address.Pays?
  {
    && tx.version == 1 && tx.lockTime == 0 && NullInput(tx.input)
    && |tx.outputs| == (if commitment.Commits? then 2 else 1)
    && tx.outputs[0].value == reward && tx.outputs[0].script == address.script
    && (commitment.Commits? ==> tx.outputs[1].value == 0 && tx.outputs[1].script == commitment.script)
  }

  /** All-zero transaction id, the largest index, the largest sequence number. */
  predicate NullInput(i: Input) {
    && |i.outpoint| == 36 && LeNat(i.outpoint[..32]) == 0 && LeNat(i.outpoint[32..]) == 0xFFFF_FFFF
    && i.sequence == 0xFFFF_FFFF
  }

  predicate StartsWithHeight(script: seq<byte>, height: nat, after: seq<byte>) {
    DecodeHeight(script).Height? && DecodeHeight(script).height == height && after <= DecodeHeight(script).rest
  }

  lemma FixedFields()
    ensures LeNat([1, 0, 0, 0]) == 1 && LeNat([0xff, 0xff, 0xff, 0xff]) == 0xFFFF_FFFF && LeNat(Zeros(4)) == 0
    ensures LeNat(Zeros(32)) == 0
  {
    OneByOne(1, 0, 0, 0);
    OneByOne(0xff, 0xff, 0xff, 0xff);
    LeZeros(4);
    LeZeros(32);
  }

  lemma OneByOne(a: byte, b: byte, c: byte, d: byte)
    ensures LeNat([a, b, c, d]) == a + 256 * (b + 256 * (c + 256 * d))
  {
    assert [a, b, c, d][1..] == [b, c, d] && [b, c, d][1..] == [c, d] && [c, d][1..] == [d] && [d][1..] == [];
    assert LeNat([d]) == d;
    assert LeNat([c, d]) == c + 256 * d;
    assert LeNat([b, c, d]) == b + 256 * (c + 256 * d);
  }

  lemma {:induction false} LeZeros(n: nat)
    ensures LeNat(Zeros(n)) == 0
  {
    if n > 0 {
      LeZeros(n - 1);
      assert Zeros(n)[1..] == Zeros(n - 1);
    }
  }

  lemma OutRead(o: TxOut, rest: seq<byte>)
    requires WellFormed(o)
    ensures ReadOut(OutBytes(o) + rest) == Read(o, rest)
  {
    Widths();
    var (v, n, s) := (LeFixed(o.value, 8), EncodeVarint(|o.script|), o.script);
    OutFront(v, s, rest);
    ThreeRight(v, n, s, rest);
  }

  lemma ThreeRight(a: seq<byte>, b: seq<byte>, c: seq<byte>, d: seq<byte>)
    ensures a + b + c + d == a + (b + (c + d))
  {
  }

  lemma OneOut(o: TxOut, rest: seq<byte>)
    requires WellFormed(o)
    ensures ReadOuts(OutBytes(o) + rest, 1) == Read([o], rest)
  {
    OutRead(o, rest);
    assert ReadOuts(rest, 0) == Read([], rest);
    assert [o] + [] == [o];
  }

  lemma TwoOuts(o: TxOut, c: TxOut, rest: seq<byte>)
    requires WellFormed(o) && WellFormed(c)
    ensures ReadOuts(OutBytes(o) + (OutBytes(c) + rest), 2) == Read([o, c], rest)
  {
    OutRead(o, OutBytes(c) + rest);
    OneOut(c, rest);
    assert [o] + [c] == [o, c];
  }

  lemma CountRead(n: byte, rest: seq<byte>)
    requires n < 0xfd
    ensures DecodeVarint(EncodeVarint(n) + rest) == Value(n, rest)
  {
    VarintRoundTrip(n, rest);
  }

  lemma EndGlue(n: byte, body: seq<byte>, outs: seq<TxOut>, input: Input)
    requires n < 0xfd && ReadOuts(body, n) == Read(outs, Zeros(4))
    ensures ReadEnd(1, input, EncodeVarint(n) + body) == Some(Tx(1, input, outs, 0))
  {
    CountRead(n, body);
    LockRead();
  }

  lemma LockRead()
    ensures ReadLe(Zeros(4), 4) == Read(0, [])
  {
    FixedFields();
    assert Zeros(4)[..4] == Zeros(4) && Zeros(4)[4..] == [];
  }

  lemma OneRight(a: seq<byte>, b: seq<byte>, c: seq<byte>)
    ensures a + b + [] + c == a + (b + c)
  {
    assert a + b + [] == a + b;
  }

  lemma EndOne(reward: TxOut, input: Input)
    requires WellFormed(reward)
    ensures ReadEnd(1, input, Outputs(reward, []) + Zeros(4)) == Some(Tx(1, input, [reward], 0))
  {
    OneOut(reward, Zeros(4));
    EndGlue(1, OutBytes(reward) + Zeros(4), [reward], input);
    OutputsOne(reward, Zeros(4));
  }

  lemma OutputsOne(reward: TxOut, rest: seq<byte>)
    requires WellFormed(reward)
    ensures Outputs(reward, []) + rest == EncodeVarint(1) + (OutBytes(reward) + rest)
  {
    OneRight(EncodeVarint(1), OutBytes(reward), rest);
  }

  lemma EndTwo(reward: TxOut, c: TxOut, input: Input)
    requires WellFormed(reward) && WellFormed(c)
    ensures ReadEnd(1, input, Outputs(reward, [c]) + Zeros(4)) == Some(Tx(1, input, [reward, c], 0))
  {
    var (n, o, p, lock) := (EncodeVarint(2), OutBytes(reward), OutBytes(c), Zeros(4));
    TwoOuts(reward, c, lock);
    EndGlue(2, o + (p + lock), [reward, c], input);
    ThreeRight(n, o, p, lock);
  }

  lemma EndRead(reward: TxOut, commitment: seq<TxOut>, input: Input)
    requires WellFormed(reward) && |commitment| <= 1 && (commitment != [] ==> WellFormed(commitment[0]))
    ensures ReadEnd(1, input, Outputs(reward, commitment) + Zeros(4)) == Some(Tx(1, input, [reward] + commitment, 0))
  {
    if commitment == [] {
      EndOne(reward, input);
      assert [reward] + commitment == [reward];
    } else {
      EndTwo(reward, commitment[0], input);
      assert commitment == [commitment[0]] && [reward] + commitment == [reward, commitment[0]];
    }
  }

  lemma SerializeRight(script: seq<byte>, outputs: seq<byte>)
    requires |script| <= U64_MAX
    ensures Serialize(script, outputs)
         == [1, 0, 0, 0] + ([1] + ((Zeros(32) + [0xff, 0xff, 0xff, 0xff])
            + (EncodeVarint(|script|) + (script + ([0xff, 0xff, 0xff, 0xff] + (outputs + Zeros(4)))))))
  {
    var (v, one, z, f) := ([1, 0, 0, 0], [1], Zeros(32), [0xff, 0xff, 0xff, 0xff]);
    var (n, lock) := (EncodeVarint(|script|), Zeros(4));
    HeadRight(v, one, z, f, n, script, f + outputs + lock);
    assert f + outputs + lock == f + (outputs + lock);
  }

  lemma HeadRight(v: seq<byte>, one: seq<byte>, z: seq<byte>, f: seq<byte>, n: seq<byte>, script: seq<byte>, tail: seq<byte>)
    ensures v + one + z + f + n + script + tail == v + (one + ((z + f) + (n + (script + tail))))
  {
    var rest := n + (script + tail);
    ThreeRight(v + one + z + f, n, script, tail);
    ThreeRight(v + one, z, f, rest);
    assert z + (f + rest) == (z + f) + rest;
    assert v + one + ((z + f) + rest) == v + (one + ((z + f) + rest));
  }

  /** The transaction the pool serializes reads as the coinbase it stands for. */
  lemma SerializedReads(script: seq<byte>, reward: TxOut, commitment: seq<TxOut>)
    requires |script| <= U64_MAX
    requires WellFormed(reward) && |commitment| <= 1 && (commitment != [] ==> WellFormed(commitment[0]))
    ensures ReadTx(Serialize(script, Outputs(reward, commitment)))
         == Some(Tx(1, Input(Zeros(32) + [0xff, 0xff, 0xff, 0xff], script, 0xFFFF_FFFF), [reward] + commitment, 0))
  {
    var outputs := Outputs(reward, commitment);
    var version, z, f := SerializedParts(script, outputs);
    EndRead(reward, commitment, Input(z, script, 0xFFFF_FFFF));
    PartsRead(version, z, script, f, outputs + Zeros(4), Serialize(script, outputs),
              Tx(1, Input(z, script, 0xFFFF_FFFF), [reward] + commitment, 0));
  }

  lemma SerializedParts(script: seq<byte>, outputs: seq<byte>) returns (version: seq<byte>, z: seq<byte>, f: seq<byte>)
    requires |script| <= U64_MAX
    ensures |version| == 4 && LeNat(version) == 1 && |f| == 4 && LeNat(f) == 0xFFFF_FFFF
    ensures |z| == 36 && z == Zeros(32) + [0xff, 0xff, 0xff, 0xff]
    ensures Serialize(script, outputs)
         == version + ([1] + (z + (EncodeVarint(|script|) + (script + (f + (outputs + Zeros(4)))))))
  {
    version, z, f := [1, 0, 0, 0], Zeros(32) + [0xff, 0xff, 0xff, 0xff], [0xff, 0xff, 0xff, 0xff];
    FixedFields();
    SerializeRight(script, outputs);
  }

  lemma PartsRead(version: seq<byte>, z: seq<byte>, script: seq<byte>, f: seq<byte>, end: seq<byte>, bytes: seq<byte>, tx: Tx)
    requires |version| == 4 && LeNat(version) == 1 && |z| == 36 && |script| <= U64_MAX && |f| == 4 && LeNat(f) == 0xFFFF_FFFF
    requires bytes == version + ([1] + (z + (EncodeVarint(|script|) + (script + (f + end)))))
    requires ReadEnd(1, Input(z, script, 0xFFFF_FFFF), end) == Some(tx)
    ensures ReadTx(bytes) == Some(tx)
  {
    TxFront(version, z, script, f, end);
  }

  lemma ScriptReads(height: nat, tag: seq<byte>, e: seq<byte>)
    requires height <= U64_MAX
    ensures StartsWithHeight(ScriptSig(height, tag, e), height, tag + e)
  {
    var rest := tag + e + Leftover(|e|);
    assert ScriptSig(height, tag, e) == HeightPush(height) + rest;
    HeightRoundTrip(height, rest);
  }

  lemma CoinbaseReads(coinbase: seq<byte>, height: nat, tag: seq<byte>, e: seq<byte>,
                      reward: nat, address: Address, commitment: Commitment)
    requires height <= U64_MAX && InputsFit(reward, address, commitment) && address.Pays? && !commitment.BadHex?
    requires IsCoinbase(coinbase, height, tag, e, OutputBytes(reward, address, commitment))
    ensures Reads(coinbase, height, tag, e, reward, address, commitment)
  {
    var outs := if commitment.Absent? then [] else [TxOut(0, commitment.script)];
    var script := ScriptSig(height, tag, e);
    SerializedReads(script, TxOut(reward, address.script), outs);
    ScriptReads(height, tag, e);
    NullReads(script);
    PaysReads(Input(Zeros(32) + [0xff, 0xff, 0xff, 0xff], script, 0xFFFF_FFFF), reward, address, commitment);
  }

  lemma NullReads(script: seq<byte>)
    ensures NullInput(Input(Zeros(32) + [0xff, 0xff, 0xff, 0xff], script, 0xFFFF_FFFF))
  {
    FixedFields();
    var outpoint := Zeros(32) + [0xff, 0xff, 0xff, 0xff];
    assert outpoint[..32] == Zeros(32) && outpoint[32..] == [0xff, 0xff, 0xff, 0xff];
  }

  lemma PaysReads(input: Input, reward: nat, address: Address, commitment: Commitment)
    requires NullInput(input) && address.Pays? && !commitment.BadHex?
    ensures var outs := if commitment.Absent? then [] else [TxOut(0, commitment.script)];
            Pays(Tx(1, input, [TxOut(reward, address.script)] + outs, 0), reward, address, commitment)
  {
  }

  // ----- Splicing -----

  datatype Job = Job(template: seq<byte>, offset: nat, len1: nat, len2: nat, coinbase1: seq<byte>, coinbase2: seq<byte>)

  /** `build_job`, step 2: split around the region. */
  function SplitJob(template: seq<byte>, offset: nat, len1: nat, len2: nat): Job
    requires offset + len1 + len2 <= |template|
  {
    Job(template, offset, len1, len2, template[..offset], template[offset + len1 + len2..])
  }

  /** `assemble_coinbase`: overwrite the region when the widths add up. */
  method AssembleCoinbase(job: Job, en1: seq<byte>, en2: seq<byte>) returns (coinbase: seq<byte>)
    requires job.offset + job.len1 + job.len2 <= |job.template|
    requires job == SplitJob(job.template, job.offset, job.len1, job.len2)
    ensures |en1| + |en2| == job.len1 + job.len2 ==> coinbase == job.coinbase1 + (en1 + en2 + job.coinbase2)
    ensures |en1| + |en2| != job.len1 + job.len2 ==> coinbase == job.template
  {
    if |en1| + |en2| != job.len1 + job.len2 {
      return job.template;
    }
    var t, off := job.template, job.offset;
    var cb := new byte[|t|](i requires 0 <= i < |t| => t[i]);
    assert cb[..] == t;
    CopyInto(cb, off, en1);
    CopyInto(cb, off + |en1|, en2);
    coinbase := cb[..];
    TwoCopies(t, off, en1, en2);
  }

  /** `copy_from_slice` into part of a buffer. */
  method CopyInto(a: array<byte>, off: nat, e: seq<byte>)
    requires off + |e| <= a.Length
    modifies a
    ensures a[..] == Overwrite(old(a[..]), off, e)
  {
    for i := 0 to |e|
      invariant forall k :: 0 <= k < i ==> a[off + k] == e[k]
      invariant forall k :: 0 <= k < off || off + i <= k < a.Length ==> a[k] == old(a[k])
    {
      a[off + i] := e[i];
    }
  }

  function Overwrite(s: seq<byte>, off: nat, e: seq<byte>): seq<byte>
    requires off + |e| <= |s|
  {
    s[..off] + e + s[off + |e|..]
  }

  lemma TwoCopies(t: seq<byte>, off: nat, e: seq<byte>, f: seq<byte>)
    requires off + |e| + |f| <= |t|
    ensures Overwrite(Overwrite(t, off, e), off + |e|, f) == t[..off] + (e + f + t[off + |e| + |f|..])
  {
    var u := Overwrite(t, off, e);
    assert u[..off + |e|] == t[..off] + e;
    assert u[off + |e| + |f|..] == t[off + |e| + |f|..];
  }

  /** From template to what the miner hashed: for every split of the reserved width the
      assembled coinbase is the two halves the miner was given with the extranonce
      between them; and unless the height push spells the sentinel a node reads it as the
      coinbase of that height, tag and extranonce that pays the reward to the address. */
  method BuildAndAssemble(height: nat, reward: nat, address: Address, tag: seq<byte>, len1: nat, len2: nat,
                          commitment: Commitment, en1: seq<byte>, en2: seq<byte>)
    returns (job: Job, coinbase: seq<byte>)
    requires height <= U64_MAX && ValidUtf8(tag) && InputsFit(reward, address, commitment)
    requires 5 + |tag| + (if len1 + len2 < 4 then 4 else len1 + len2) <= 100
    requires address.Pays? && !commitment.BadHex?
    requires |en1| + |en2| == len1 + len2
    ensures coinbase == job.coinbase1 + (en1 + en2 + job.coinbase2)
    ensures !SpellsSentinel(HeightPush(height)) ==>
      && IsCoinbase(coinbase, height, tag, en1 + en2, OutputBytes(reward, address, commitment))
      && Reads(coinbase, height, tag, en1 + en2, reward, address, commitment)
  {
    var r := BuildCoinbase(height, reward, address, tag, len1, len2, commitment);
    job, coinbase := SpliceTemplate(r, height, tag, len1, len2, OutputBytes(reward, address, commitment), en1, en2);
    if IsCoinbase(coinbase, height, tag, en1 + en2, OutputBytes(reward, address, commitment)) {
      CoinbaseReads(coinbase, height, tag, en1 + en2, reward, address, commitment);
    }
  }

  /** The serialized transaction with this height, tag and extranonce. */
  ghost predicate IsCoinbase(coinbase: seq<byte>, height: nat, tag: seq<byte>, e: seq<byte>, outputs: seq<byte>) {
    |ScriptSig(height, tag, e)| <= 105 && coinbase == Serialize(ScriptSig(height, tag, e), outputs)
  }

  method SpliceTemplate(r: BuildResult, ghost height: nat, ghost tag: seq<byte>, len1: nat, len2: nat,
                        ghost outputs: seq<byte>, en1: seq<byte>, en2: seq<byte>)
    returns (job: Job, coinbase: seq<byte>)
    requires HasRegion(r, len1 + len2) && |en1| + |en2| == len1 + len2
    ensures coinbase == job.coinbase1 + (en1 + en2 + job.coinbase2)
    ensures IsTemplate(r, height, tag, len1 + len2, outputs) ==> IsCoinbase(coinbase, height, tag, en1 + en2, outputs)
  {
    job, coinbase := Splice(r.bytes, r.offset, len1, len2, en1, en2);
    SplicedCoinbase(r, height, tag, len1 + len2, outputs, en1 + en2, coinbase);
  }

  lemma SplicedCoinbase(r: BuildResult, height: nat, tag: seq<byte>, n: nat, outputs: seq<byte>,
                        e: seq<byte>, coinbase: seq<byte>)
    requires HasRegion(r, n) && |e| == n && coinbase == r.bytes[..r.offset] + (e + r.bytes[r.offset + n..])
    ensures IsTemplate(r, height, tag, n, outputs) ==> IsCoinbase(coinbase, height, tag, e, outputs)
  {
    if IsTemplate(r, height, tag, n, outputs) {
      SplicedIsCoinbase(r, height, tag, n, outputs, e, coinbase);
    }
  }

  lemma SplicedIsCoinbase(r: BuildResult, height: nat, tag: seq<byte>, n: nat, outputs: seq<byte>,
                          e: seq<byte>, coinbase: seq<byte>)
    requires IsTemplate(r, height, tag, n, outputs) && HasRegion(r, n) && |e| == n
    requires coinbase == r.bytes[..r.offset] + (e + r.bytes[r.offset + n..])
    ensures IsCoinbase(coinbase, height, tag, e, outputs)
  {
    SplitsAt(height, tag, e, outputs, r.bytes, r.offset, n);
  }

  method Splice(t: seq<byte>, at: nat, len1: nat, len2: nat, en1: seq<byte>, en2: seq<byte>)
    returns (job: Job, coinbase: seq<byte>)
    requires at + len1 + len2 <= |t| && |en1| + |en2| == len1 + len2
    ensures coinbase == job.coinbase1 + (en1 + en2 + job.coinbase2)
    ensures coinbase == t[..at] + (en1 + en2 + t[at + len1 + len2..])
  {
    job := SplitJob(t, at, len1, len2);
    coinbase := AssembleCoinbase(job, en1, en2);
  }

  lemma SplitsAt(height: nat, tag: seq<byte>, e: seq<byte>, outputs: seq<byte>, t: seq<byte>, at: nat, n: nat)
    requires IsTemplate(Built(t, at), height, tag, n, outputs) && |e| == n
    ensures |ScriptSig(height, tag, e)| <= 105 && at + n <= |t|
    ensures Serialize(ScriptSig(height, tag, e), outputs) == t[..at] + (e + t[at + n..])
  {
    ZeroLayout(height, tag, n, outputs);
    Layout(height, tag, e, outputs);
    RegionSwapped(Lead(height, tag, n), Zeros(n), e, Leftover(n) + TxTail(outputs), t, at, n);
  }

  lemma ZeroLayout(height: nat, tag: seq<byte>, n: nat, outputs: seq<byte>)
    requires Fits(height, tag, n)
    ensures |ScriptSig(height, tag, Zeros(n))| <= 105
    ensures Serialize(ScriptSig(height, tag, Zeros(n)), outputs)
         == Lead(height, tag, n) + (Zeros(n) + (Leftover(n) + TxTail(outputs)))
  {
    Layout(height, tag, Zeros(n), outputs);
  }

  /** Same surroundings, another region of the same width. */
  lemma RegionSwapped(lead: seq<byte>, z: seq<byte>, e: seq<byte>, past: seq<byte>, t: seq<byte>, at: nat, n: nat)
    requires t == lead + (z + past) && at == |lead| && n == |z| == |e|
    ensures at + n <= |t| && lead + (e + past) == t[..at] + (e + t[at + n..])
  {
    DropPast(lead, z + past, n);
    assert (z + past)[n..] == past;
  }
}
