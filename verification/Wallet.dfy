/** Coin selection (src/wallet.rs): which outputs a wallet spends for a payment, and when a payment can
    be built at all. */
module Wallet {
  import opened Types
  import opened Sorting
  import opened Ledger

  /** A wallet's public key and the address that the key hashes to. */
  datatype Wallet = Wallet(publicKey: Bytes, address: Bytes)

  ghost predicate OwnsAddress(h: Host, w: Wallet) {
    h.owner(w.publicKey) == Some(w.address)
  }

  datatype TransactionPreview = TransactionPreview(
    transaction: Transaction,
    recipient: Bytes,
    amount: u64,
    fee: u64,
    change: u64,
    selectedInputValue: u64)

  predicate IsHexDigit(b: byte) {
    48 <= b <= 57 || 65 <= b <= 70 || 97 <= b <= 102
  }

  /** Wallet::validate_address: "BEC" and forty hexadecimal digits. */
  predicate ValidAddress(address: Bytes) {
    && |address| == 43 && address[..3] == [66, 69, 67]
    && forall i :: 3 <= i < |address| ==> IsHexDigit(address[i])
  }

  // ---------- Spendable outputs ----------

  /** The sort key (height, txid, vout), compared. */
  predicate KeyAtMost(utxos: UtxoSet, a: OutPoint, b: OutPoint)
    requires a in utxos && b in utxos
  {
    || utxos[a].blockHeight < utxos[b].blockHeight
    || (utxos[a].blockHeight == utxos[b].blockHeight &&
        (a.txid < b.txid || (a.txid == b.txid && a.vout <= b.vout)))
  }

  function PointOrder(utxos: UtxoSet): (OutPoint, OutPoint) -> bool {
    (a, b) => a in utxos && b in utxos && KeyAtMost(utxos, a, b)
  }

  lemma PointOrderIsTotal(utxos: UtxoSet, points: seq<OutPoint>)
    requires forall o :: o in points ==> o in utxos
    ensures Orders(PointOrder(utxos), points)
  {
  }

  function Owned(utxos: UtxoSet, script: Bytes): (points: set<OutPoint>)
    ensures forall o :: o in points ==> o in utxos
  {
    set o | o in utxos && utxos[o].output.scriptPubkey == script
  }

  /** get_spendable_utxos: the outputs of a script in the order (height, txid, vout). */
  ghost function Spendable(utxos: UtxoSet, script: Bytes): (list: seq<OutPoint>)
    ensures multiset(list) == multiset(Owned(utxos, script))
    ensures forall o :: o in list <==> o in Owned(utxos, script)
    ensures Distinct(list)
  {
    var list := Sort(PointOrder(utxos), ListOf(Owned(utxos, script)));
    SortKeeps(PointOrder(utxos), ListOf(Owned(utxos, script)));
    ListMembers(list, Owned(utxos, script));
    list
  }

  /** The list has exactly the outputs of the script, each once, by height, then txid, then index. */
  lemma SpendableSorted(utxos: UtxoSet, script: Bytes)
    ensures var list := Spendable(utxos, script);
      && (forall o :: o in list <==> o in utxos && utxos[o].output.scriptPubkey == script)
      && Ascending(utxos, list)
  {
    var list := ListOf(Owned(utxos, script));
    ListMembers(list, Owned(utxos, script));
    PointOrderIsTotal(utxos, list);
    SortSorts(PointOrder(utxos), list);
  }

  /** Each of them comes before all later ones by height, by txid at one height, and by index in one transaction. */
  ghost predicate Ascending(utxos: UtxoSet, list: seq<OutPoint>)
    requires forall o :: o in list ==> o in utxos
  {
    forall i, j :: 0 <= i < j < |list| ==> Earlier(utxos, list[i], list[j])
  }

  ghost predicate Earlier(utxos: UtxoSet, a: OutPoint, b: OutPoint)
    requires a in utxos && b in utxos
  {
    var (m, n) := (utxos[a].blockHeight, utxos[b].blockHeight);
    m < n || (m == n && (a.txid < b.txid || (a.txid == b.txid && a.vout < b.vout)))
  }

  /** What the wallet chooses from are exactly its own outputs that are not reserved, in that order. */
  lemma FreeExactly(utxos: UtxoSet, w: Wallet, reserved: set<OutPoint>)
    ensures var list := Free(utxos, w, reserved);
      && (forall o :: o in list <==> o in utxos && utxos[o].output.scriptPubkey == w.address && o !in reserved)
      && Ascending(utxos, list)
  {
    hide Ascending, Spendable;
    var all := Spendable(utxos, w.address);
    SpendableSorted(utxos, w.address);
    UnreservedAscending(utxos, all, reserved);
  }

  lemma {:induction false} UnreservedAscending(utxos: UtxoSet, points: seq<OutPoint>, reserved: set<OutPoint>)
    requires (forall o :: o in points ==> o in utxos) && Ascending(utxos, points)
    ensures var list := Unreserved(points, reserved);
      && (forall o :: o in list ==> o in points)
      && Ascending(utxos, list)
  {
    if points != [] {
      var front, last := points[..|points| - 1], points[|points| - 1];
      UnreservedAscending(utxos, front, reserved);
      var list := Unreserved(front, reserved);
      hide Earlier;
      forall o | o in list
        ensures Earlier(utxos, o, last)
      {
        var j :| 0 <= j < |front| && front[j] == o;
        assert points[j] == o;
      }
    }
  }

  /** An address is BEC and forty hexadecimal digits of either case, in ASCII. */
  lemma AddressExactly(address: Bytes)
    ensures ValidAddress(address) <==> exists digits: string ::
      |digits| == 40 && (forall c :: c in digits ==> c in HEX_DIGITS) && address == Ascii("BEC" + digits)
  {
    hide IsHexDigit;
    if ValidAddress(address) {
      var digits := seq(40, i requires 0 <= i < 40 => address[3 + i] as char);
      forall i | 0 <= i < 40
        ensures digits[i] in HEX_DIGITS && Ascii(digits)[i] == address[3 + i]
      {
        HexDigit(address[3 + i]);
      }
      hide ValidAddress;
      assert address == address[..3] + address[3..] == [66, 69, 67] + Ascii(digits);
      AsciiAfter(digits);
    }
    if digits: string :|
      |digits| == 40 && (forall c :: c in digits ==> c in HEX_DIGITS) && address == Ascii("BEC" + digits)
    {
      AsciiAfter(digits);
      forall i | 3 <= i < 43
        ensures IsHexDigit(address[i])
      {
        assert digits[i - 3] in digits && address[i] == Ascii(digits)[i - 3];
        HexCharacter(digits[i - 3]);
      }
    }
  }

  const HEX_DIGITS: string := "0123456789abcdefABCDEF"

  lemma HexDigit(b: byte)
    ensures IsHexDigit(b) ==> b < 0x80 && b as char in HEX_DIGITS
  {
  }

  lemma HexCharacter(c: char)
    requires c in HEX_DIGITS
    ensures (c as int) < 0x80 && IsHexDigit(c as int)
  {
  }

  lemma AsciiAfter(digits: string)
    ensures Ascii("BEC" + digits) == [66, 69, 67] + Ascii(digits)
  {
  }

  function Ascii(s: string): Bytes {
    seq(|s|, i requires 0 <= i < |s| => if s[i] as int < 0x80 then s[i] as int else 0)
  }

  /** Whatever order the map is iterated in, the sorted list is the same. */
  method GetSpendable(utxos: UtxoSet, script: Bytes) returns (list: seq<OutPoint>)
    ensures list == Spendable(utxos, script)
  {
    var found: seq<OutPoint> := [];
    var rest := Owned(utxos, script);
    while rest != {}
      invariant multiset(found) + multiset(rest) == multiset(Owned(utxos, script))
      decreases rest
    {
      var o: OutPoint :| o in rest;
      assert multiset(rest) == multiset(rest - {o}) + multiset{o};
      found := found + [o];
      rest := rest - {o};
    }
    ListMembers(found, Owned(utxos, script));
    PointOrderIsTotal(utxos, found);
    SortIgnoresOrder(PointOrder(utxos), found, ListOf(Owned(utxos, script)));
    list := Sort(PointOrder(utxos), found);
  }

  function Unreserved(points: seq<OutPoint>, reserved: set<OutPoint>): seq<OutPoint> {
    if points == [] then []
    else
      var last := points[|points| - 1];
      Unreserved(points[..|points| - 1], reserved) + if last in reserved then [] else [last]
  }

  lemma {:induction false} UnreservedMembers(points: seq<OutPoint>, reserved: set<OutPoint>)
    requires Distinct(points)
    ensures forall o :: o in Unreserved(points, reserved) <==> o in points && o !in reserved
    ensures Distinct(Unreserved(points, reserved))
  {
    if points != [] {
      var front, last := points[..|points| - 1], points[|points| - 1];
      UnreservedMembers(front, reserved);
      assert points == front + [last];
      assert forall o :: o in points <==> o in front || o == last;
      assert last !in front;
      if last !in reserved {
        DistinctPlus(Unreserved(front, reserved), last);
      }
    }
  }

  lemma DistinctPlus(points: seq<OutPoint>, o: OutPoint)
    requires Distinct(points) && o !in points
    ensures Distinct(points + [o])
  {
  }

  /** What the wallet may choose from, in the order in which it does. */
  ghost function Free(utxos: UtxoSet, w: Wallet, reserved: set<OutPoint>): (points: seq<OutPoint>)
    ensures points == Unreserved(Spendable(utxos, w.address), reserved)
    ensures forall o :: o in points <==> o in Owned(utxos, w.address) && o !in reserved
    ensures Distinct(points)
  {
    var all := Spendable(utxos, w.address);
    UnreservedMembers(all, reserved);
    Unreserved(all, reserved)
  }

  /** The value of the first `n` of these outputs. */
  function PrefixSum(utxos: UtxoSet, points: seq<OutPoint>, n: nat): nat
    requires n <= |points| && forall o :: o in points ==> o in utxos
  {
    if n == 0 then 0 else PrefixSum(utxos, points, n - 1) + utxos[points[n - 1]].output.value
  }

  lemma {:induction false} PrefixSumMonotone(utxos: UtxoSet, points: seq<OutPoint>, m: nat, n: nat)
    requires m <= n <= |points| && forall o :: o in points ==> o in utxos
    ensures PrefixSum(utxos, points, m) <= PrefixSum(utxos, points, n)
  {
    if m < n {
      PrefixSumMonotone(utxos, points, m, n - 1);
    }
  }

  /** Wallet::spendable_balance */
  ghost function SpendableBalance(h: Host, utxos: UtxoSet, w: Wallet, reserved: set<OutPoint>): Result<u64> {
    var points := Free(utxos, w, reserved);
    h.Plain(PrefixSum(utxos, points, |points|))
  }

  // ---------- Choosing ----------

  datatype Picked = Picked(points: seq<OutPoint>, total: u64)

  /** The selection loop over the first `n` outputs: it skips what is reserved, and stops once the target
      is reached. */
  function PickFirst(utxos: UtxoSet, all: seq<OutPoint>, reserved: set<OutPoint>, target: u64, n: nat): Result<Picked>
    requires n <= |all| && forall o :: o in all ==> o in utxos
  {
    if n == 0 then Ok(Picked([], 0))
    else
      var p :- PickFirst(utxos, all, reserved, target, n - 1);
      var o := all[n - 1];
      if p.total >= target || o in reserved then Ok(p)
      else if p.total + utxos[o].output.value >= U64_LIMIT then Err(SelectionOverflow)
      else Ok(Picked(p.points + [o], p.total + utxos[o].output.value))
  }

  function MakePayment(w: Wallet, points: seq<OutPoint>, to: Bytes, amount: u64, change: u64): Transaction {
    NewTransaction(
      seq(|points|, i requires 0 <= i < |points| => TxInput(points[i], w.publicKey, U32_LIMIT - 1)),
      [TxOutput(amount, to)] + if change > 0 then [TxOutput(change, w.address)] else [])
  }

  /** Blockchain::validate_transaction */
  function ValidateSpending(h: Host, utxos: UtxoSet, tx: Transaction): Result<()> {
    if tx.inputs == [] then Err(NoInputs)
    else
      var _ :- ValidateTransaction(h, utxos, tx);
      Ok(())
  }

  /** The end of build_transaction_preview, once the inputs have been selected. */
  function Finish(h: Host, utxos: UtxoSet, w: Wallet, p: Picked, to: Bytes, amount: u64, fee: u64)
    : Result<TransactionPreview>
  {
    if p.total < amount + fee then Err(InsufficientFunds)
    else
      var change := p.total - (amount + fee);
      var tx := MakePayment(w, p.points, to, amount, change);
      var _ :- ValidateSpending(h, utxos, tx);
      Ok(TransactionPreview(tx, to, amount, fee, change, p.total))
  }

  ghost function BuildPreview(h: Host, utxos: UtxoSet, w: Wallet, reserved: set<OutPoint>, to: Bytes, amount: u64,
      fee: u64)
    : Result<TransactionPreview>
  {
    if !ValidAddress(to) then Err(BadRecipient)
    else if amount == 0 then Err(ZeroAmount)
    else if amount + fee >= U64_LIMIT then Err(AmountOverflow)
    else
      var all := Spendable(utxos, w.address);
      var p :- PickFirst(utxos, all, reserved, amount + fee, |all|);
      Finish(h, utxos, w, p, to, amount, fee)
  }

  /** build_transaction_preview */
  method BuildTransactionPreview(h: Host, utxos: UtxoSet, w: Wallet, reserved: set<OutPoint>, to: Bytes,
      amount: u64, fee: u64)
    returns (r: Result<TransactionPreview>)
    ensures r == BuildPreview(h, utxos, w, reserved, to, amount, fee)
  {
    hide Finish, ValidAddress, Spendable;
    if !ValidAddress(to) {
      return Err(BadRecipient);
    }
    if amount == 0 {
      return Err(ZeroAmount);
    }
    if amount + fee >= U64_LIMIT {
      return Err(AmountOverflow);
    }
    var target: u64 := amount + fee;
    var all := GetSpendable(utxos, w.address);
    var p := Picked([], 0);
    for i := 0 to |all|
      invariant PickFirst(utxos, all, reserved, target, i) == Ok(p) && p.total < target
    {
      PickFailsEarly(utxos, all, reserved, target, i + 1, |all|);
      var o := all[i];
      if o in reserved {
        continue;
      }
      if p.total + utxos[o].output.value >= U64_LIMIT {
        return Err(SelectionOverflow);
      }
      p := Picked(p.points + [o], p.total + utxos[o].output.value);
      if p.total >= target {
        break;
      }
    }
    r := Finish(h, utxos, w, p, to, amount, fee);
  }

  /** An error ends the selection, and so does reaching the target. */
  lemma {:induction false} PickFailsEarly(
      utxos: UtxoSet, all: seq<OutPoint>, reserved: set<OutPoint>, target: u64, m: nat, n: nat)
    requires m <= n <= |all| && forall o :: o in all ==> o in utxos
    ensures var p := PickFirst(utxos, all, reserved, target, m);
      !p.Ok? || p.value.total >= target ==> PickFirst(utxos, all, reserved, target, n) == p
  {
    if m < n {
      PickFailsEarly(utxos, all, reserved, target, m, n - 1);
    }
  }

  // ---------- What is chosen ----------

  /** `n` is the least number of these outputs that reaches the target. */
  ghost predicate ReachedAt(utxos: UtxoSet, points: seq<OutPoint>, target: u64, n: nat)
    requires forall o :: o in points ==> o in utxos
  {
    && n <= |points| && PrefixSum(utxos, points, n) >= target
    && (n > 0 ==> PrefixSum(utxos, points, n - 1) < target)
  }

  /** What the selection has come to: the shortest prefix of the free outputs that reaches the target, or
      all of them if none does; or an overflow on the way there. */
  ghost predicate PickMeans(utxos: UtxoSet, free: seq<OutPoint>, target: u64, r: Result<Picked>)
    requires forall o :: o in free ==> o in utxos
  {
    match r
    case Ok(p) =>
      && |p.points| <= |free| && p.points == free[..|p.points|]
      && p.total == PrefixSum(utxos, free, |p.points|)
      && (p.total >= target ==> ReachedAt(utxos, free, target, |p.points|))
      && (p.total < target ==> |p.points| == |free|)
    case Err(e) =>
      && e == SelectionOverflow
      && exists n: nat :: ReachedAt(utxos, free, target, n) && PrefixSum(utxos, free, n) >= U64_LIMIT
    case Trap => false
  }

  lemma {:induction false} PrefixSumPrefix(utxos: UtxoSet, points: seq<OutPoint>, more: seq<OutPoint>, n: nat)
    requires n <= |points| && (forall o :: o in points ==> o in utxos)
      && (forall o :: o in points + more ==> o in utxos)
    ensures PrefixSum(utxos, points + more, n) == PrefixSum(utxos, points, n)
  {
    if n > 0 {
      PrefixSumPrefix(utxos, points, more, n - 1);
    }
  }

  lemma {:induction false} PickMeaning(
      utxos: UtxoSet, all: seq<OutPoint>, reserved: set<OutPoint>, target: u64, n: nat)
    requires n <= |all| && target > 0 && forall o :: o in all ==> o in utxos
    ensures forall o :: o in Unreserved(all[..n], reserved) ==> o in utxos
    ensures PickMeans(utxos, Unreserved(all[..n], reserved), target, PickFirst(utxos, all, reserved, target, n))
  {
    if n > 0 {
      PickMeaning(utxos, all, reserved, target, n - 1);
      assert all[..n][..n - 1] == all[..n - 1];
      var free := Unreserved(all[..n - 1], reserved);
      if all[n - 1] in reserved {
        assert Unreserved(all[..n], reserved) == free;
      } else {
        assert Unreserved(all[..n], reserved) == free + [all[n - 1]];
        PickOneMore(utxos, free, all[n - 1], target, PickFirst(utxos, all, reserved, target, n - 1),
                    PickFirst(utxos, all, reserved, target, n));
      }
    }
  }

  lemma PickOneMore(utxos: UtxoSet, free: seq<OutPoint>, o: OutPoint, target: u64, r: Result<Picked>,
      next: Result<Picked>)
    requires target > 0 && o in utxos && forall f :: f in free ==> f in utxos
    requires PickMeans(utxos, free, target, r)
    requires next ==
      if !r.Ok? || r.value.total >= target then r
      else if r.value.total + utxos[o].output.value >= U64_LIMIT then Err(SelectionOverflow)
      else Ok(Picked(r.value.points + [o], r.value.total + utxos[o].output.value))
    ensures (forall f :: f in free + [o] ==> f in utxos) && PickMeans(utxos, free + [o], target, next)
  {
    var longer, all := free + [o], |free|;
    forall k | 0 <= k <= |free|
      ensures PrefixSum(utxos, longer, k) == PrefixSum(utxos, free, k)
    {
      PrefixSumPrefix(utxos, free, [o], k);
    }
    assert PrefixSum(utxos, longer, |free| + 1) == PrefixSum(utxos, free, |free|) + utxos[o].output.value;
    if r.Err? {
      var n: nat :| ReachedAt(utxos, free, target, n) && PrefixSum(utxos, free, n) >= U64_LIMIT;
      assert ReachedAt(utxos, longer, target, n);
    } else if r.value.total < target {
      assert next.Err? ==> ReachedAt(utxos, longer, target, |free| + 1);
    }
  }

  // ---------- The payment ----------

  lemma {:induction false} PaymentRedeems(h: Host, utxos: UtxoSet, w: Wallet, points: seq<OutPoint>,
      tx: Transaction, n: nat)
    requires OwnsAddress(h, w) && n <= |points| == |tx.inputs|
    requires forall o :: o in points ==> o in utxos && o in Owned(utxos, w.address)
    requires forall i :: 0 <= i < |points| ==>
      tx.inputs[i].previousOutput == points[i] && tx.inputs[i].scriptSig == w.publicKey
    requires PrefixSum(utxos, points, |points|) < U64_LIMIT
    ensures RedeemInputs(h, utxos, tx.inputs, n) == Ok(PrefixSum(utxos, points, n))
  {
    if n > 0 {
      PaymentRedeems(h, utxos, w, points, tx, n - 1);
      PrefixSumMonotone(utxos, points, n, |points|);
      assert points[n - 1] in points;
    }
  }

  lemma PaymentShape(w: Wallet, points: seq<OutPoint>, to: Bytes, amount: u64, change: u64)
    requires amount > 0 && Distinct(points)
    ensures var tx := MakePayment(w, points, to, amount, change);
      && |tx.inputs| == |points|
      && (forall i :: 0 <= i < |points| ==>
            tx.inputs[i].previousOutput == points[i] && tx.inputs[i].scriptSig == w.publicKey)
      && CheckTransaction(tx) == Ok(())
      && ValueSum(tx.outputs, |tx.outputs|) == amount + change
  {
    var tx := MakePayment(w, points, to, amount, change);
    assert DistinctInputs(tx.inputs);
    PaymentTotal(tx.outputs, amount, change);
  }

  lemma {:induction false} PaymentTotal(outputs: seq<TxOutput>, amount: u64, change: u64)
    requires |outputs| == (if change > 0 then 2 else 1) && outputs[0].value == amount
    requires change > 0 ==> outputs[1].value == change
    ensures ValueSum(outputs, |outputs|) == amount + change
  {
    assert ValueSum(outputs, 1) == ValueSum(outputs, 0) + amount;
  }

  /** The payment built from different outputs of the wallet validates, with exactly the fee asked for. */
  lemma {:induction false} PaymentValid(
      h: Host, utxos: UtxoSet, w: Wallet, points: seq<OutPoint>, to: Bytes, amount: u64, fee: u64)
    requires OwnsAddress(h, w) && amount > 0
    requires (forall o :: o in points ==> o in utxos && o in Owned(utxos, w.address)) && Distinct(points)
    requires amount + fee <= PrefixSum(utxos, points, |points|) < U64_LIMIT
    ensures var tx := MakePayment(w, points, to, amount, PrefixSum(utxos, points, |points|) - (amount + fee));
      tx.inputs != [] && ValidateTransaction(h, utxos, tx) == Ok(fee)
  {
    var total := PrefixSum(utxos, points, |points|);
    var change := total - (amount + fee);
    var tx := MakePayment(w, points, to, amount, change);
    assert points != [];
    hide *;
    PaymentShape(w, points, to, amount, change);
    PaymentRedeems(h, utxos, w, points, tx, |points|);
    ValidFromParts(h, utxos, tx, total, fee);
  }

  lemma {:induction false} ValidFromParts(h: Host, utxos: UtxoSet, tx: Transaction, total: u64, fee: u64)
    requires CheckTransaction(tx) == Ok(()) && RedeemInputs(h, utxos, tx.inputs, |tx.inputs|) == Ok(total)
    requires ValueSum(tx.outputs, |tx.outputs|) + fee == total
    ensures ValidateTransaction(h, utxos, tx) == Ok(fee)
  {
    hide CheckTransaction, RedeemInputs, ValueSum;
  }

  lemma {:induction false} PrefixOfPrefix(utxos: UtxoSet, points: seq<OutPoint>, n: nat)
    requires n <= |points| && forall o :: o in points ==> o in utxos
    ensures (forall o :: o in points[..n] ==> o in utxos)
    ensures PrefixSum(utxos, points[..n], n) == PrefixSum(utxos, points, n)
  {
    assert points == points[..n] + points[n..];
    PrefixSumPrefix(utxos, points[..n], points[n..], n);
  }

  lemma ReachedOnce(utxos: UtxoSet, points: seq<OutPoint>, target: u64, m: nat, n: nat)
    requires forall o :: o in points ==> o in utxos
    requires ReachedAt(utxos, points, target, m) && ReachedAt(utxos, points, target, n)
    ensures m == n
  {
    if m < n {
      PrefixSumMonotone(utxos, points, m, n - 1);
    } else if n < m {
      PrefixSumMonotone(utxos, points, n, m - 1);
    }
  }

  lemma {:induction false} ReachedSomewhere(utxos: UtxoSet, points: seq<OutPoint>, target: u64, n: nat) returns (m: nat)
    requires n <= |points| && (forall o :: o in points ==> o in utxos) && PrefixSum(utxos, points, n) >= target
    ensures m <= n && ReachedAt(utxos, points, target, m)
  {
    if n > 0 && PrefixSum(utxos, points, n - 1) >= target {
      m := ReachedSomewhere(utxos, points, target, n - 1);
    } else {
      m := n;
    }
  }

  /** The transaction spends the first `n` of these outputs with the wallet's key, pays the amount to the
      recipient, and the change, if any, back to the wallet. */
  ghost predicate IsPayment(w: Wallet, points: seq<OutPoint>, n: nat, to: Bytes, amount: u64, change: u64,
      tx: Transaction)
    requires n <= |points|
  {
    && |tx.inputs| == n
    && (forall i :: 0 <= i < n ==>
          tx.inputs[i] == TxInput(points[i], w.publicKey, 0xFFFF_FFFF))
    && tx.version == 1 && tx.lockTime == 0
    && |tx.outputs| == (if change > 0 then 2 else 1)
    && tx.outputs[0] == TxOutput(amount, to)
    && (change > 0 ==> tx.outputs[1] == TxOutput(change, w.address))
  }

  lemma MakesPayment(w: Wallet, points: seq<OutPoint>, n: nat, to: Bytes, amount: u64, change: u64)
    requires n <= |points|
    ensures IsPayment(w, points, n, to, amount, change, MakePayment(w, points[..n], to, amount, change))
  {
  }

  /** The preview is of such a payment, and the payment is valid with exactly the fee asked for. */
  ghost predicate Pays(h: Host, utxos: UtxoSet, w: Wallet, points: seq<OutPoint>, to: Bytes, amount: u64, fee: u64,
                       n: nat, preview: TransactionPreview)
    requires n <= |points| && forall o :: o in points ==> o in utxos
  {
    && preview.selectedInputValue == PrefixSum(utxos, points, n) == amount + fee + preview.change
    && preview.recipient == to && preview.amount == amount && preview.fee == fee
    && IsPayment(w, points, n, to, amount, preview.change, preview.transaction)
    && ValidateTransaction(h, utxos, preview.transaction) == Ok(fee)
  }

  /** What comes of a selection that has reached the target, and of one that has not. */
  lemma {:induction false} FinishMeaning(
      h: Host, utxos: UtxoSet, w: Wallet, free: seq<OutPoint>, p: Picked, to: Bytes, amount: u64,
      fee: u64)
    requires OwnsAddress(h, w) && amount > 0 && amount + fee < U64_LIMIT && Distinct(free)
    requires forall o :: o in free ==> o in utxos && o in Owned(utxos, w.address)
    requires PickMeans(utxos, free, amount + fee, Ok(p))
    ensures var r := Finish(h, utxos, w, p, to, amount, fee);
      if p.total >= amount + fee then
        r.Ok? && Pays(h, utxos, w, free, to, amount, fee, |p.points|, r.value)
      else
        r == Err(InsufficientFunds) && PrefixSum(utxos, free, |free|) < amount + fee
  {
    hide ValidateTransaction, MakePayment, IsPayment, Owned, ReachedAt, PrefixSum, OwnsAddress;
    if p.total >= amount + fee {
      var n := |p.points|;
      MakesPayment(w, free, n, to, amount, p.total - (amount + fee));
      PrefixOfPrefix(utxos, free, n);
      assert forall o :: o in free[..n] ==> o in free;
      PaymentValid(h, utxos, w, free[..n], to, amount, fee);
    }
  }

  /** Some shortest prefix of the free outputs reaches the target with a sum that fits in u64. */
  ghost predicate Coverable(utxos: UtxoSet, free: seq<OutPoint>, target: u64)
    requires forall o :: o in free ==> o in utxos
  {
    exists n: nat :: ReachedAt(utxos, free, target, n) && PrefixSum(utxos, free, n) < U64_LIMIT
  }

  lemma {:induction false} PickFree(utxos: UtxoSet, w: Wallet, reserved: set<OutPoint>, target: u64)
    requires target > 0
    ensures var all := Spendable(utxos, w.address);
      PickMeans(utxos, Free(utxos, w, reserved), target, PickFirst(utxos, all, reserved, target, |all|))
  {
    var all := Spendable(utxos, w.address);
    assert all[..|all|] == all;
    PickMeaning(utxos, all, reserved, target, |all|);
  }

  /** A payment can be built exactly if the recipient is an address, the amount is not zero, and some shortest prefix
      of the free outputs reaches amount and fee with a sum that fits in u64. It then spends that prefix, and the ledger
      charges it exactly the fee asked for. Otherwise the answer is the first error that applies. */
  lemma {:induction false} PreviewMeaning(h: Host, utxos: UtxoSet, w: Wallet, reserved: set<OutPoint>,
                                          to: Bytes, amount: u64, fee: u64)
    requires OwnsAddress(h, w)
    ensures var r := BuildPreview(h, utxos, w, reserved, to, amount, fee); var free := Free(utxos, w, reserved);
      if !ValidAddress(to) then r == Err(BadRecipient)
      else if amount == 0 then r == Err(ZeroAmount)
      else if amount + fee >= 0x1_0000_0000_0000_0000 then r == Err(AmountOverflow)
      else if Coverable(utxos, free, amount + fee) then
        r.Ok? && exists n: nat ::
          ReachedAt(utxos, free, amount + fee, n) && Pays(h, utxos, w, free, to, amount, fee, n, r.value)
      else r == Err(if PrefixSum(utxos, free, |free|) < amount + fee then InsufficientFunds else SelectionOverflow)
  {
    if ValidAddress(to) && amount > 0 && amount + fee < U64_LIMIT {
      Covered(h, utxos, w, reserved, to, amount, fee);
    }
    hide ValidAddress, Free, Spendable, Coverable, PickFirst, Finish, Pays, ReachedAt;
  }

  lemma {:induction false} Covered(h: Host, utxos: UtxoSet, w: Wallet, reserved: set<OutPoint>,
                                   to: Bytes, amount: u64, fee: u64)
    requires OwnsAddress(h, w) && ValidAddress(to) && amount > 0 && amount + fee < U64_LIMIT
    ensures var r := BuildPreview(h, utxos, w, reserved, to, amount, fee); var free := Free(utxos, w, reserved);
      if Coverable(utxos, free, amount + fee) then
        r.Ok? && exists n: nat ::
          ReachedAt(utxos, free, amount + fee, n) && Pays(h, utxos, w, free, to, amount, fee, n, r.value)
      else r == Err(if PrefixSum(utxos, free, |free|) < amount + fee then InsufficientFunds else SelectionOverflow)
  {
    hide ValidAddress, ValidateTransaction, Finish, Pays, PickFirst, Spendable, Free;
    var all, free, target := Spendable(utxos, w.address), Free(utxos, w, reserved), amount + fee;
    PickFree(utxos, w, reserved, target);
    var picked := PickFirst(utxos, all, reserved, target, |all|);
    if picked.Ok? {
      FinishMeaning(h, utxos, w, free, picked.value, to, amount, fee);
      if picked.value.total < target {
        NotCoverable(utxos, free, target);
      }
    } else {
      var n: nat :| ReachedAt(utxos, free, target, n) && PrefixSum(utxos, free, n) >= U64_LIMIT;
      Uncoverable(utxos, free, target, n);
      PrefixSumMonotone(utxos, free, n, |free|);
    }
  }

  lemma {:induction false} NotCoverable(utxos: UtxoSet, free: seq<OutPoint>, target: u64)
    requires (forall o :: o in free ==> o in utxos) && PrefixSum(utxos, free, |free|) < target
    ensures !Coverable(utxos, free, target)
  {
    forall n: nat | n <= |free|
      ensures PrefixSum(utxos, free, n) < target
    {
      PrefixSumMonotone(utxos, free, n, |free|);
    }
  }

  lemma {:induction false} Uncoverable(utxos: UtxoSet, free: seq<OutPoint>, target: u64, n: nat)
    requires forall o :: o in free ==> o in utxos
    requires ReachedAt(utxos, free, target, n) && PrefixSum(utxos, free, n) >= U64_LIMIT
    ensures !Coverable(utxos, free, target)
  {
    forall m: nat | ReachedAt(utxos, free, target, m)
      ensures m == n
    {
      ReachedOnce(utxos, free, target, m, n);
    }
  }

  /** When everything the wallet can spend adds up within u64, a payment can be built exactly if its recipient is an
      address, its amount is not zero, and the spendable balance covers amount and fee. */
  lemma {:induction false} PreviewExactlyIfCovered(
      h: Host, utxos: UtxoSet, w: Wallet, reserved: set<OutPoint>, to: Bytes,
      amount: u64, fee: u64)
    requires OwnsAddress(h, w)
    requires var free := Free(utxos, w, reserved); PrefixSum(utxos, free, |free|) < U64_LIMIT
    ensures SpendableBalance(h, utxos, w, reserved).Ok?
    ensures BuildPreview(h, utxos, w, reserved, to, amount, fee).Ok? <==>
      ValidAddress(to) && amount > 0 && SpendableBalance(h, utxos, w, reserved).value >= amount + fee
  {
    var free := Free(utxos, w, reserved);
    PreviewMeaning(h, utxos, w, reserved, to, amount, fee);
    hide BuildPreview, Free, ValidAddress;
    if amount + fee >= U64_LIMIT {
      assert SpendableBalance(h, utxos, w, reserved).value < amount + fee;
    } else if PrefixSum(utxos, free, |free|) >= amount + fee {
      var n := ReachedSomewhere(utxos, free, amount + fee, |free|);
      PrefixSumMonotone(utxos, free, n, |free|);
    } else {
      NotCoverable(utxos, free, amount + fee);
    }
  }
}
