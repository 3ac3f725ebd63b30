/** The bytes that are hashed (src/transaction.rs, src/block.rs): serialization of transactions and
    block headers, and the proof that it loses nothing. */
module TxCodec {
  import opened Types
  import opened Endian

  // ---------- Serialization ----------

  function Length32(n: nat): Bytes {
    ToLe(n % U32_LIMIT, 4)
  }

  function SerializeInput(input: TxInput): Bytes {
    ToBe(input.previousOutput.txid, 32) + (ToLe(input.previousOutput.vout, 4)
    + (Length32(|input.scriptSig|) + (input.scriptSig + ToLe(input.sequence, 4))))
  }

  function SerializeOutput(output: TxOutput): Bytes {
    ToLe(output.value, 8) + (Length32(|output.scriptPubkey|) + output.scriptPubkey)
  }

  function SerializeInputs(inputs: seq<TxInput>, n: nat): Bytes
    requires n <= |inputs|
  {
    if n == 0 then [] else SerializeInputs(inputs, n - 1) + SerializeInput(inputs[n - 1])
  }

  function SerializeOutputs(outputs: seq<TxOutput>, n: nat): Bytes
    requires n <= |outputs|
  {
    if n == 0 then [] else SerializeOutputs(outputs, n - 1) + SerializeOutput(outputs[n - 1])
  }

  /** Transaction::serialize */
  function Serialize(tx: Transaction): Bytes {
    ToLe(tx.version, 4) + (Length32(|tx.inputs|) + (SerializeInputs(tx.inputs, |tx.inputs|)
    + (Length32(|tx.outputs|) + (SerializeOutputs(tx.outputs, |tx.outputs|) + ToLe(tx.lockTime, 8)))))
  }

  method SerializeLoop(tx: Transaction) returns (bytes: Bytes)
    ensures bytes == Serialize(tx)
  {
    hide ToLe, SerializeInput, SerializeOutput, Length32;
    bytes := ToLe(tx.version, 4);
    bytes := bytes + Length32(|tx.inputs|);
    ghost var start := bytes;
    for i := 0 to |tx.inputs|
      invariant bytes == start + SerializeInputs(tx.inputs, i)
    {
      bytes := bytes + SerializeInput(tx.inputs[i]);
    }
    bytes := bytes + Length32(|tx.outputs|);
    ghost var middle := bytes;
    for i := 0 to |tx.outputs|
      invariant bytes == middle + SerializeOutputs(tx.outputs, i)
    {
      bytes := bytes + SerializeOutput(tx.outputs[i]);
    }
    bytes := bytes + ToLe(tx.lockTime, 8);
  }

  /** Transaction::estimated_size, with its cast to u64. */
  function EstimatedSize(tx: Transaction): u64 {
    |Serialize(tx)| % U64_LIMIT
  }

  /** BlockHeader::serialize */
  function SerializeHeader(header: BlockHeader): Bytes {
    ToBe(header.previousBlockHash, 32) + (ToBe(header.merkleRoot, 32) + (ToLe(header.timestamp, 8)
    + (ToLe(header.bits, 4) + (ToLe(header.nonce, 8) + ToLe(header.height, 8)))))
  }

  // ---------- Nothing is lost ----------

  /** Every length that is written as a u32 fits in one. */
  ghost predicate Sized(tx: Transaction) {
    && |tx.inputs| < U32_LIMIT
    && |tx.outputs| < U32_LIMIT
    && (forall i :: 0 <= i < |tx.inputs| ==> |tx.inputs[i].scriptSig| < U32_LIMIT)
    && (forall i :: 0 <= i < |tx.outputs| ==> |tx.outputs[i].scriptPubkey| < U32_LIMIT)
  }

  lemma Regroup(a: Bytes, b: Bytes, c: Bytes)
    ensures (a + b) + c == a + (b + c)
  {
  }

  /** Fields of equal length can be cut off the front of equal byte strings. */
  lemma CutFront(a: Bytes, b: Bytes, r: Bytes, s: Bytes)
    requires a + r == b + s && |a| == |b|
    ensures a == b && r == s
  {
    assert a == (a + r)[..|a|] == (b + s)[..|b|] == b;
    assert r == (a + r)[|a|..] == (b + s)[|b|..] == s;
  }

  lemma {:induction false} CutInteger(m: nat, n: nat, width: nat, r: Bytes, s: Bytes)
    requires m < Pow256(width) && n < Pow256(width)
    requires ToLe(m, width) + r == ToLe(n, width) + s
    ensures m == n && r == s
  {
    CutFront(ToLe(m, width), ToLe(n, width), r, s);
    ToLeInjective(m, n, width);
  }

  lemma {:induction false} ToBeInjective(m: nat, n: nat, width: nat)
    requires m < Pow256(width) && n < Pow256(width) && ToBe(m, width) == ToBe(n, width)
    ensures m == n
  {
    if width > 0 {
      var front, front' := ToBe(m / 256, width - 1), ToBe(n / 256, width - 1);
      assert front == ToBe(m, width)[..width - 1] == ToBe(n, width)[..width - 1] == front';
      assert ToBe(m, width)[width - 1] == m % 256 && ToBe(n, width)[width - 1] == n % 256;
      ToBeInjective(m / 256, n / 256, width - 1);
    }
  }

  lemma {:induction false} CutDigest(m: Digest, n: Digest, r: Bytes, s: Bytes)
    requires ToBe(m, 32) + r == ToBe(n, 32) + s
    ensures m == n && r == s
  {
    CutFront(ToBe(m, 32), ToBe(n, 32), r, s);
    Widths();
    ToBeInjective(m, n, 32);
  }

  /** A length field and the bytes it counts. */
  lemma CutBytes(a: Bytes, b: Bytes, r: Bytes, s: Bytes)
    requires |a| < U32_LIMIT && |b| < U32_LIMIT
    requires Length32(|a|) + (a + r) == Length32(|b|) + (b + s)
    ensures a == b && r == s
  {
    hide Length32;
    CutLength(|a|, |b|, a + r, b + s);
    CutFront(a, b, r, s);
  }

  lemma CutInput(a: TxInput, b: TxInput, r: Bytes, s: Bytes)
    requires |a.scriptSig| < U32_LIMIT && |b.scriptSig| < U32_LIMIT
    requires SerializeInput(a) + r == SerializeInput(b) + s
    ensures a == b && r == s
  {
    hide ToLe, ToBe, Length32;
    Widths();
    var sequenceA, sequenceB := ToLe(a.sequence, 4) + r, ToLe(b.sequence, 4) + s;
    var scriptA := Length32(|a.scriptSig|) + (a.scriptSig + sequenceA);
    var scriptB := Length32(|b.scriptSig|) + (b.scriptSig + sequenceB);
    var indexA, indexB := ToLe(a.previousOutput.vout, 4) + scriptA, ToLe(b.previousOutput.vout, 4) + scriptB;
    assert SerializeInput(a) + r == ToBe(a.previousOutput.txid, 32) + indexA;
    assert SerializeInput(b) + s == ToBe(b.previousOutput.txid, 32) + indexB;
    CutDigest(a.previousOutput.txid, b.previousOutput.txid, indexA, indexB);
    CutInteger(a.previousOutput.vout, b.previousOutput.vout, 4, scriptA, scriptB);
    CutBytes(a.scriptSig, b.scriptSig, sequenceA, sequenceB);
    CutInteger(a.sequence, b.sequence, 4, r, s);
  }

  lemma CutOutput(a: TxOutput, b: TxOutput, r: Bytes, s: Bytes)
    requires |a.scriptPubkey| < U32_LIMIT && |b.scriptPubkey| < U32_LIMIT
    requires SerializeOutput(a) + r == SerializeOutput(b) + s
    ensures a == b && r == s
  {
    hide ToLe, Length32;
    Widths();
    var scriptA := Length32(|a.scriptPubkey|) + (a.scriptPubkey + r);
    var scriptB := Length32(|b.scriptPubkey|) + (b.scriptPubkey + s);
    assert SerializeOutput(a) + r == ToLe(a.value, 8) + scriptA;
    assert SerializeOutput(b) + s == ToLe(b.value, 8) + scriptB;
    CutInteger(a.value, b.value, 8, scriptA, scriptB);
    CutBytes(a.scriptPubkey, b.scriptPubkey, r, s);
  }

  lemma OneMore<T>(a: seq<T>, b: seq<T>, n: nat)
    requires 0 < n <= |a| && n <= |b| && a[..n - 1] == b[..n - 1] && a[n - 1] == b[n - 1]
    ensures a[..n] == b[..n]
  {
    assert a[..n] == a[..n - 1] + [a[n - 1]] && b[..n] == b[..n - 1] + [b[n - 1]];
  }

  lemma {:induction false} CutInputs(a: seq<TxInput>, b: seq<TxInput>, n: nat, r: Bytes, s: Bytes)
    requires n <= |a| && n <= |b|
    requires forall i :: 0 <= i < n ==> |a[i].scriptSig| < U32_LIMIT && |b[i].scriptSig| < U32_LIMIT
    requires SerializeInputs(a, n) + r == SerializeInputs(b, n) + s
    ensures a[..n] == b[..n] && r == s
  {
    if n > 0 {
      hide SerializeInput, SerializeOutput;
      var lastA, lastB := SerializeInput(a[n - 1]) + r, SerializeInput(b[n - 1]) + s;
      Regroup(SerializeInputs(a, n - 1), SerializeInput(a[n - 1]), r);
      Regroup(SerializeInputs(b, n - 1), SerializeInput(b[n - 1]), s);
      CutInputs(a, b, n - 1, lastA, lastB);
      CutInput(a[n - 1], b[n - 1], r, s);
      OneMore(a, b, n);
    } else {
      assert [] + r == r && [] + s == s;
    }
  }

  lemma {:induction false} CutOutputs(a: seq<TxOutput>, b: seq<TxOutput>, n: nat, r: Bytes, s: Bytes)
    requires n <= |a| && n <= |b|
    requires forall i :: 0 <= i < n ==> |a[i].scriptPubkey| < U32_LIMIT && |b[i].scriptPubkey| < U32_LIMIT
    requires SerializeOutputs(a, n) + r == SerializeOutputs(b, n) + s
    ensures a[..n] == b[..n] && r == s
  {
    if n > 0 {
      hide SerializeInput, SerializeOutput;
      var lastA, lastB := SerializeOutput(a[n - 1]) + r, SerializeOutput(b[n - 1]) + s;
      Regroup(SerializeOutputs(a, n - 1), SerializeOutput(a[n - 1]), r);
      Regroup(SerializeOutputs(b, n - 1), SerializeOutput(b[n - 1]), s);
      CutOutputs(a, b, n - 1, lastA, lastB);
      CutOutput(a[n - 1], b[n - 1], r, s);
      OneMore(a, b, n);
    } else {
      assert [] + r == r && [] + s == s;
    }
  }

  /** Transactions of representable size have the same bytes only if they are the same. */
  lemma SerializeInjective(a: Transaction, b: Transaction)
    requires Sized(a) && Sized(b)
    ensures Serialize(a) == Serialize(b) <==> a == b
  {
    if Serialize(a) == Serialize(b) {
      SameBytes(a, b);
    }
  }

  lemma CutLength(m: nat, n: nat, r: Bytes, s: Bytes)
    requires m < U32_LIMIT && n < U32_LIMIT && Length32(m) + r == Length32(n) + s
    ensures m == n && r == s
  {
    hide ToLe, Pow256;
    Widths();
    assert m % U32_LIMIT == m && n % U32_LIMIT == n;
    CutInteger(m, n, 4, r, s);
  }

  lemma SameBytes(a: Transaction, b: Transaction)
    requires Sized(a) && Sized(b) && Serialize(a) == Serialize(b)
    ensures a == b
  {
    hide ToLe, Length32, SerializeInputs, SerializeOutputs;
    Widths();
    var (m, n, j, k) := (|a.inputs|, |b.inputs|, |a.outputs|, |b.outputs|);
    var lockA, lockB := ToLe(a.lockTime, 8), ToLe(b.lockTime, 8);
    var outputsA := SerializeOutputs(a.outputs, j) + lockA;
    var outputsB := SerializeOutputs(b.outputs, k) + lockB;
    var inputsA := SerializeInputs(a.inputs, m) + (Length32(j) + outputsA);
    var inputsB := SerializeInputs(b.inputs, n) + (Length32(k) + outputsB);
    CutInteger(a.version, b.version, 4, Length32(m) + inputsA, Length32(n) + inputsB);
    CutLength(m, n, inputsA, inputsB);
    CutInputs(a.inputs, b.inputs, m, Length32(j) + outputsA, Length32(k) + outputsB);
    CutLength(j, k, outputsA, outputsB);
    CutOutputs(a.outputs, b.outputs, j, lockA, lockB);
    ToLeInjective(a.lockTime, b.lockTime, 8);
    assert a.inputs[..m] == a.inputs && b.inputs[..n] == b.inputs;
    assert a.outputs[..j] == a.outputs && b.outputs[..k] == b.outputs;
  }

  /** Headers have the same bytes only if they are the same. */
  lemma HeaderInjective(a: BlockHeader, b: BlockHeader)
    ensures SerializeHeader(a) == SerializeHeader(b) <==> a == b
  {
    if SerializeHeader(a) == SerializeHeader(b) {
      hide ToLe, ToBe;
      Widths();
      var heightA, heightB := ToLe(a.height, 8), ToLe(b.height, 8);
      var nonceA, nonceB := ToLe(a.nonce, 8) + heightA, ToLe(b.nonce, 8) + heightB;
      var bitsA, bitsB := ToLe(a.bits, 4) + nonceA, ToLe(b.bits, 4) + nonceB;
      var timeA, timeB := ToLe(a.timestamp, 8) + bitsA, ToLe(b.timestamp, 8) + bitsB;
      CutDigest(a.previousBlockHash, b.previousBlockHash,
                ToBe(a.merkleRoot, 32) + timeA, ToBe(b.merkleRoot, 32) + timeB);
      CutDigest(a.merkleRoot, b.merkleRoot, timeA, timeB);
      CutInteger(a.timestamp, b.timestamp, 8, bitsA, bitsB);
      CutInteger(a.bits, b.bits, 4, nonceA, nonceB);
      CutInteger(a.nonce, b.nonce, 8, heightA, heightB);
      ToLeInjective(a.height, b.height, 8);
    }
  }

  // ---------- One hash function for everything ----------

  /** The host whose digests are all taken with one hash of bytes. */
  function HashWith(hash: Bytes -> Digest, owner: Bytes -> Option<Bytes>, overflowChecks: bool): Host {
    Host(tx => hash(Serialize(tx)), header => hash(SerializeHeader(header)),
         (a, b) => hash(ToBe(a, 32) + ToBe(b, 32)), owner, overflowChecks)
  }

  /** Two strings on which the hash collides. */
  ghost predicate Collides(hash: Bytes -> Digest, a: Bytes, b: Bytes) {
    a != b && hash(a) == hash(b)
  }

  /** Equal txids of different transactions, and equal hashes of different headers, are collisions of
      the underlying hash. */
  lemma EqualDigests(hash: Bytes -> Digest, owner: Bytes -> Option<Bytes>, checks: bool,
                     s: Transaction, t: Transaction, a: BlockHeader, b: BlockHeader)
    requires Sized(s) && Sized(t)
    ensures var h := HashWith(hash, owner, checks);
      && (s != t && h.txid(s) == h.txid(t) ==> Collides(hash, Serialize(s), Serialize(t)))
      && (a != b && h.block(a) == h.block(b) ==> Collides(hash, SerializeHeader(a), SerializeHeader(b)))
  {
    SerializeInjective(s, t);
    HeaderInjective(a, b);
  }
}
