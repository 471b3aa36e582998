/** How a node reads a transaction without witness data: the byte layout of Bitcoin's
    transaction serialization, as a reader. Nothing here knows how the pool writes one. */
module Transaction {
  import opened Wrappers
  import opened Bytes
  import opened Varint

  datatype TxOut = TxOut(value: nat, script: seq<byte>)

  datatype Input = Input(outpoint: seq<byte>, script: seq<byte>, sequence: nat)

  /** A transaction with one input. */
  datatype Tx = Tx(version: nat, input: Input, outputs: seq<TxOut>, lockTime: nat)

  datatype Parsed<+T> = Read(value: T, rest: seq<byte>) | Bad

  function ReadBytes(s: seq<byte>, n: nat): Parsed<seq<byte>> {
    if n <= |s| then Read(s[..n], s[n..]) else Bad
  }

  /** An `n`-byte little-endian number. */
  function ReadLe(s: seq<byte>, n: nat): Parsed<nat> {
    if n <= |s| then Read(LeNat(s[..n]), s[n..]) else Bad
  }

  /** A length-prefixed script. */
  function ReadScript(s: seq<byte>): Parsed<seq<byte>> {
    var len := DecodeVarint(s);
    if len.Value? then ReadBytes(len.rest, len.n) else Bad
  }

  function ReadOut(s: seq<byte>): Parsed<TxOut> {
    var value := ReadLe(s, 8);
    if value.Bad? then Bad
    else
      var script := ReadScript(value.rest);
      if script.Bad? then Bad else Read(TxOut(value.value, script.value), script.rest)
  }

  function ReadOuts(s: seq<byte>, n: nat): Parsed<seq<TxOut>> {
    if n == 0 then Read([], s)
    else
      var first := ReadOut(s);
      if first.Bad? then Bad
      else
        var others := ReadOuts(first.rest, n - 1);
        if others.Bad? then Bad else Read([first.value] + others.value, others.rest)
  }

  function ReadInput(s: seq<byte>): Parsed<Input> {
    var outpoint := ReadBytes(s, 36);
    if outpoint.Bad? then Bad
    else
      var script := ReadScript(outpoint.rest);
      if script.Bad? then Bad
      else
        var sequence := ReadLe(script.rest, 4);
        if sequence.Bad? then Bad else Read(Input(outpoint.value, script.value, sequence.value), sequence.rest)
  }

  /** Outputs and lock time, with nothing left over. */
  function ReadEnd(version: nat, input: Input, s: seq<byte>): Option<Tx> {
    var count := DecodeVarint(s);
    if !count.Value? then None
    else
      var outputs := ReadOuts(count.rest, count.n);
      if outputs.Bad? then None
      else
        var lockTime := ReadLe(outputs.rest, 4);
        if lockTime.Bad? || lockTime.rest != [] then None
        else Some(Tx(version, input, outputs.value, lockTime.value))
  }

  function ReadTx(s: seq<byte>): Option<Tx> {
    var version := ReadLe(s, 4);
    if version.Bad? then None
    else
      var count := DecodeVarint(version.rest);
      if !count.Value? || count.n != 1 then None
      else
        var input := ReadInput(count.rest);
        if input.Bad? then None else ReadEnd(version.value, input.value, input.rest)
  }

  // ----- Reading what was put in front -----

  lemma ReadFront(a: seq<byte>, rest: seq<byte>)
    ensures ReadBytes(a + rest, |a|) == Read(a, rest) && ReadLe(a + rest, |a|) == Read(LeNat(a), rest)
  {
    assert (a + rest)[..|a|] == a && (a + rest)[|a|..] == rest;
  }

  lemma ScriptFront(script: seq<byte>, rest: seq<byte>)
    requires |script| <= U64_MAX
    ensures ReadScript(EncodeVarint(|script|) + (script + rest)) == Read(script, rest)
  {
    VarintRoundTrip(|script|, script + rest);
    ReadFront(script, rest);
  }

  lemma OutFront(value: seq<byte>, script: seq<byte>, rest: seq<byte>)
    requires |value| == 8 && |script| <= U64_MAX
    ensures ReadOut(value + (EncodeVarint(|script|) + (script + rest))) == Read(TxOut(LeNat(value), script), rest)
  {
    ReadFront(value, EncodeVarint(|script|) + (script + rest));
    ScriptFront(script, rest);
  }

  lemma InputFront(outpoint: seq<byte>, script: seq<byte>, sequence: seq<byte>, rest: seq<byte>)
    requires |outpoint| == 36 && |script| <= U64_MAX && |sequence| == 4
    ensures ReadInput(outpoint + (EncodeVarint(|script|) + (script + (sequence + rest))))
         == Read(Input(outpoint, script, LeNat(sequence)), rest)
  {
    ReadFront(outpoint, EncodeVarint(|script|) + (script + (sequence + rest)));
    ScriptFront(script, sequence + rest);
    ReadFront(sequence, rest);
  }

  lemma OneInput(rest: seq<byte>)
    ensures DecodeVarint([1] + rest) == Value(1, rest)
  {
    assert ([1] + rest)[1..] == rest;
  }

  lemma TxFront(version: seq<byte>, outpoint: seq<byte>, script: seq<byte>, sequence: seq<byte>, rest: seq<byte>)
    requires |version| == 4 && |outpoint| == 36 && |script| <= U64_MAX && |sequence| == 4
    ensures ReadTx(version + ([1] + (outpoint + (EncodeVarint(|script|) + (script + (sequence + rest))))))
         == ReadEnd(LeNat(version), Input(outpoint, script, LeNat(sequence)), rest)
  {
    var input := outpoint + (EncodeVarint(|script|) + (script + (sequence + rest)));
    ReadFront(version, [1] + input);
    OneInput(input);
    InputFront(outpoint, script, sequence, rest);
  }
}
