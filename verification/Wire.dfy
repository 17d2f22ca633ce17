/** Disclosures seen from the two transactions on the chain: which instructions, accounts and bytes the
    check reads, when it accepts and why it refuses, stated by position and without its own functions. */
module Wire {
  import opened Common
  import opened Group
  import opened Decrypt
  import opened Disclosure
  import Base64

  // The first instruction that goes to `program` and whose data begin with `tag`.
  ghost predicate FirstOf(ixs: seq<Instruction>, program: Address, tag: seq<byte>, i: nat) {
    && i < |ixs| && ixs[i].program == program && tag <= ixs[i].data
    && forall j :: 0 <= j < i ==> !(ixs[j].program == program && tag <= ixs[j].data)
  }

  ghost predicate Contains(tx: Transaction, program: Address, tag: seq<byte>, ix: Instruction) {
    tx.instructions.Some? && exists i: nat :: FirstOf(tx.instructions.value, program, tag, i) && tx.instructions.value[i] == ix
  }

  ghost predicate NamesAccount(ix: Instruction, n: nat, account: Address) {
    n < |ix.accounts| && ix.accounts[n] == Some(account)
  }

  // The Transfer of a transaction: its first one, with the validity account at index 4 and the two
  // auditor ciphertexts in its data.
  ghost predicate TransferOf(lib: Library, tx: Transaction, ix: Instruction, account: Address, lo: seq<byte>, hi: seq<byte>) {
    && Contains(tx, lib.token, [lib.transferTag.0, lib.transferTag.1], ix)
    && NamesAccount(ix, 4, account) && lib.transferCiphertexts(ix.data) == (lo, hi)
  }

  // The verified validity proof of a transaction: the first one, into the account at index 0.
  ghost predicate ValidityOf(lib: Library, tx: Transaction, ix: Instruction, account: Address, proof: ValidityProof) {
    && Contains(tx, lib.prover, [lib.validityTag], ix)
    && NamesAccount(ix, 0, account) && lib.validityProof(ix.data[1..]) == Some(proof)
  }

  lemma {:induction false} FindsTransfer(lib: Library, ixs: seq<Instruction>, i: nat)
    requires FirstOf(ixs, lib.token, [lib.transferTag.0, lib.transferTag.1], i)
    ensures FindTransfer(lib, ixs) == Some(ixs[i])
    decreases |ixs|
  {
    if i > 0 {
      assert forall j :: 0 <= j < |ixs| - 1 ==> ixs[1..][j] == ixs[j + 1];
      FindsTransfer(lib, ixs[1..], i - 1);
    }
  }

  lemma {:induction false} FoundTransfer(lib: Library, ixs: seq<Instruction>) returns (i: nat)
    requires FindTransfer(lib, ixs).Some?
    ensures FirstOf(ixs, lib.token, [lib.transferTag.0, lib.transferTag.1], i)
    decreases |ixs|
  {
    if IsTransfer(lib, ixs[0]) {
      i := 0;
    } else {
      i := FoundTransfer(lib, ixs[1..]);
      i := i + 1;
      assert forall j :: 0 < j < |ixs| ==> ixs[1..][j - 1] == ixs[j];
    }
  }

  lemma {:induction false} FindsValidity(lib: Library, ixs: seq<Instruction>, i: nat)
    requires FirstOf(ixs, lib.prover, [lib.validityTag], i)
    ensures FindValidity(lib, ixs) == Some(ixs[i])
    decreases |ixs|
  {
    if i > 0 {
      assert forall j :: 0 <= j < |ixs| - 1 ==> ixs[1..][j] == ixs[j + 1];
      FindsValidity(lib, ixs[1..], i - 1);
    }
  }

  lemma {:induction false} FoundValidity(lib: Library, ixs: seq<Instruction>) returns (i: nat)
    requires FindValidity(lib, ixs).Some?
    ensures FirstOf(ixs, lib.prover, [lib.validityTag], i)
    decreases |ixs|
  {
    if IsValidity(lib, ixs[0]) {
      i := 0;
    } else {
      i := FoundValidity(lib, ixs[1..]);
      i := i + 1;
      assert forall j :: 0 < j < |ixs| ==> ixs[1..][j - 1] == ixs[j];
    }
  }

  // The first 32 bytes, or all if there are fewer.
  ghost predicate Begins(bytes: seq<byte>, head: seq<byte>) {
    head <= bytes && |head| == Min(32, |bytes|)
  }

  /** What is read of a transaction as its Transfer: the validity account and the commitments, the first
      32 bytes of the low and of the high auditor ciphertext; nothing exactly when there is none. */
  lemma TransferIsRead(lib: Library, tx: Transaction)
    ensures forall ix, account, lo, hi :: TransferOf(lib, tx, ix, account, lo, hi) ==>
              var t := ReadTransfer(lib, tx.instructions);
              t.Some? && t.value.validityAccount == account && Begins(lo, t.value.commitmentLo) && Begins(hi, t.value.commitmentHi)
    ensures ReadTransfer(lib, tx.instructions).Some? ==> exists ix, account, lo, hi :: TransferOf(lib, tx, ix, account, lo, hi)
  {
    forall ix, account, lo, hi | TransferOf(lib, tx, ix, account, lo, hi)
      ensures var t := ReadTransfer(lib, tx.instructions);
              t.Some? && t.value.validityAccount == account && Begins(lo, t.value.commitmentLo) && Begins(hi, t.value.commitmentHi)
    {
      var i: nat :| FirstOf(tx.instructions.value, lib.token, [lib.transferTag.0, lib.transferTag.1], i) && tx.instructions.value[i] == ix;
      FindsTransfer(lib, tx.instructions.value, i);
    }
    if ReadTransfer(lib, tx.instructions).Some? {
      var i := FoundTransfer(lib, tx.instructions.value);
      FindsTransfer(lib, tx.instructions.value, i);
      var ix := tx.instructions.value[i];
      var (lo, hi) := lib.transferCiphertexts(ix.data);
      assert TransferOf(lib, tx, ix, ix.accounts[4].value, lo, hi);
    }
  }

  lemma ValidityIsRead(lib: Library, tx: Transaction)
    ensures forall ix, account, proof :: ValidityOf(lib, tx, ix, account, proof) ==>
              ReadValidity(lib, tx.instructions) == Some(ValidityFacts(account, proof))
    ensures ReadValidity(lib, tx.instructions).Some? ==> exists ix, account, proof :: ValidityOf(lib, tx, ix, account, proof)
  {
    forall ix, account, proof | ValidityOf(lib, tx, ix, account, proof)
      ensures ReadValidity(lib, tx.instructions) == Some(ValidityFacts(account, proof))
    {
      var i: nat :| FirstOf(tx.instructions.value, lib.prover, [lib.validityTag], i) && tx.instructions.value[i] == ix;
      FindsValidity(lib, tx.instructions.value, i);
    }
    if ReadValidity(lib, tx.instructions).Some? {
      var i := FoundValidity(lib, tx.instructions.value);
      FindsValidity(lib, tx.instructions.value, i);
      var v := ReadValidity(lib, tx.instructions).value;
      assert ValidityOf(lib, tx, tx.instructions.value[i], v.account, v.proof);
    }
  }

  // The amount that the two commitments of a Transfer hold: the low one counts once, the high one 2^16 times.
  ghost predicate Holds(lib: Library, amountOf: Amounts, lo: seq<byte>, hi: seq<byte>, units: nat) {
    && |lo| >= 32 && |hi| >= 32
    && lib.curve.decode(lo[..32]).Some? && lib.curve.decode(hi[..32]).Some?
    && units == Mod(lib.curve.order, amountOf(lib.curve.decode(lo[..32]).value) + 65536 * amountOf(lib.curve.decode(hi[..32]).value))
  }

  /** Soundness, on the instruction itself. With sound proof verifiers and binding commitments, an
      accepted disclosure names a transaction that went through, and its amount is the one that the
      commitments in the data of that transaction's Transfer hold. */
  lemma AcceptedAmount(lib: Library, amountOf: Amounts, ledger: Ledger, payload: string)
    requires Sound(lib, amountOf) && VerifyDisclosure(lib, ledger, payload).Ok?
    ensures var d := VerifyDisclosure(lib, ledger, payload).value;
      && d.transfer in ledger && !ledger[d.transfer].failed
      && exists ix, account, lo, hi ::
           TransferOf(lib, ledger[d.transfer], ix, account, lo, hi) && Holds(lib, amountOf, lo, hi, d.units)
  {
    var d := VerifyDisclosure(lib, ledger, payload).value;
    DisclosureSound(lib, amountOf, ledger, payload);
    CommitmentSizes(lib, ledger, payload);
    hide VerifyDisclosure, Sound, ReadTransfer;
    var tx := ledger[d.transfer];
    TransferIsRead(lib, tx);
    var ix, account, lo, hi :| TransferOf(lib, tx, ix, account, lo, hi);
    var t := ReadTransfer(lib, tx.instructions).value;
    assert t.commitmentLo == lo[..32] && t.commitmentHi == hi[..32];
  }

  // Accepted commitments are whole points.
  lemma CommitmentSizes(lib: Library, ledger: Ledger, payload: string)
    requires VerifyDisclosure(lib, ledger, payload).Ok?
    ensures var d := VerifyDisclosure(lib, ledger, payload).value;
      && d.transfer in ledger
      && var t := ReadTransfer(lib, ledger[d.transfer].instructions);
         t.Some? && |t.value.commitmentLo| == 32 && |t.value.commitmentHi| == 32
  {
    hide ReadTransfer, ReadValidity, CombineCiphertext, Statement, ReadLittleEndian;
  }

  // What a disclosure rests on, apart from the payload.
  datatype Evidence = Evidence(
    transfer: Instruction, validity: Instruction, account: Address, lo: seq<byte>, hi: seq<byte>,
    proof: ValidityProof, combined: Cipher)

  // The two transactions belong together: the Transfer names the account the proof was verified into.
  ghost predicate Linked(lib: Library, transferTx: Transaction, proofTx: Transaction, e: Evidence) {
    && TransferOf(lib, transferTx, e.transfer, e.account, e.lo, e.hi)
    && ValidityOf(lib, proofTx, e.validity, e.account, e.proof)
  }

  // The proof holds, and the ciphertexts in its context begin with the commitments of the Transfer:
  // the key at byte 0, the low ciphertext at 96, the high one at 224.
  ghost predicate Matches(lib: Library, e: Evidence) {
    && lib.validityHolds(e.proof) && |e.proof.context| == 352
    && |e.lo| >= 32 && |e.hi| >= 32
    && e.proof.context[96..128] == e.lo[..32] && e.proof.context[224..256] == e.hi[..32]
    && CombineCiphertext(lib.curve, ValidityContext(e.proof.context[96..224], e.proof.context[224..352]), Source)
       == Some(e.combined)
  }

  // The equality proof is about the key and the ciphertext of that context, and about the amount.
  ghost predicate Equals(lib: Library, e: Evidence, units: nat, equality: seq<byte>)
    requires |e.proof.context| == 352
  {
    lib.equalityHolds(
      e.proof.context[..32] + lib.curve.encode(e.combined.commitment) + lib.curve.encode(e.combined.handle)
      + lib.curve.encode(Commit(lib.curve.order, lib.curve.h, units, 0)), equality)
  }

  ghost predicate Shows(lib: Library, transferTx: Transaction, proofTx: Transaction, units: nat, equality: seq<byte>, e: Evidence) {
    Linked(lib, transferTx, proofTx, e) && Matches(lib, e) && Equals(lib, e, units, equality)
  }

  // The number in eight bytes, least significant first.
  function Number(b: seq<byte>): nat
    requires |b| == 8
  {
    b[0] as nat + 0x100 * (b[1] as nat) + 0x1_0000 * (b[2] as nat) + 0x100_0000 * (b[3] as nat)
    + 0x1_0000_0000 * (b[4] as nat) + 0x100_0000_0000 * (b[5] as nat) + 0x1_0000_0000_0000 * (b[6] as nat)
    + 0x100_0000_0000_0000 * (b[7] as nat)
  }

  lemma ReadsOneByte(b: seq<byte>, i: nat)
    requires i < |b|
    ensures ReadLittleEndian(b[i..]) == b[i] as nat + 256 * ReadLittleEndian(b[i + 1..])
  {
    assert b[i..][1..] == b[i + 1..];
  }

  lemma ReadsNumber(b: seq<byte>)
    requires |b| == 8
    ensures ReadLittleEndian(b) == Number(b)
  {
    assert b[0..] == b && ReadLittleEndian(b[8..]) == 0;
    hide ReadLittleEndian;
    ReadsOneByte(b, 0); ReadsOneByte(b, 1); ReadsOneByte(b, 2); ReadsOneByte(b, 3);
    ReadsOneByte(b, 4); ReadsOneByte(b, 5); ReadsOneByte(b, 6); ReadsOneByte(b, 7);
  }

  // A payload that can be read at all: its 439 letters stand for 329 bytes of version 1.
  ghost predicate Readable(payload: string, bytes: seq<byte>) {
    && |payload| == 439 && Base64.IsUrlText(payload) && Base64.FromBase64Url(payload) == Some(bytes)
    && |bytes| == 329 && bytes[0] == 1
  }

  // The transaction a payload names was found and did not fail.
  ghost predicate Went(ledger: Ledger, signature: seq<byte>) {
    signature in ledger && !ledger[signature].failed
  }

  lemma CheckedIff(lib: Library, transferTx: Transaction, proofTx: Transaction, units: nat, equality: seq<byte>)
    ensures CheckTransactions(lib, transferTx.instructions, proofTx.instructions, units, equality).None?
            <==> exists e :: Shows(lib, transferTx, proofTx, units, equality, e)
  {
    TransferIsRead(lib, transferTx);
    ValidityIsRead(lib, proofTx);
    hide ReadTransfer, ReadValidity, TransferOf, ValidityOf, CombineCiphertext, Commit;
    forall e | Shows(lib, transferTx, proofTx, units, equality, e)
      ensures CheckTransactions(lib, transferTx.instructions, proofTx.instructions, units, equality).None?
    {
      ShowsPasses(lib, ReadTransfer(lib, transferTx.instructions).value, units, equality, e);
    }
    if CheckTransactions(lib, transferTx.instructions, proofTx.instructions, units, equality).None? {
      var ix, account, lo, hi :| TransferOf(lib, transferTx, ix, account, lo, hi);
      var vix, a, proof :| ValidityOf(lib, proofTx, vix, a, proof);
      var t := ReadTransfer(lib, transferTx.instructions).value;
      var combined := CombineCiphertext(lib.curve, GroupedOf(proof.context), Source).value;
      var e := Evidence(ix, vix, account, lo, hi, proof, combined);
      PassedShows(lib, t, units, equality, e);
      assert Shows(lib, transferTx, proofTx, units, equality, e);
    }
  }

  lemma SlicesOf(context: seq<byte>)
    requires |context| == 352
    ensures GroupedOf(context) == ValidityContext(context[96..224], context[224..352])
    ensures GroupedOf(context).groupedLo[..32] == context[96..128] && GroupedOf(context).groupedHi[..32] == context[224..256]
  {
  }

  lemma ShowsPasses(lib: Library, t: TransferFacts, units: nat, equality: seq<byte>, e: Evidence)
    requires Matches(lib, e) && Equals(lib, e, units, equality) && Begins(e.lo, t.commitmentLo) && Begins(e.hi, t.commitmentHi)
    ensures CheckProof(lib, t, e.proof, units, equality).None?
  {
    hide CombineCiphertext, Commit;
    SlicesOf(e.proof.context);
    StatementIs(lib, e, units);
  }

  lemma PassedShows(lib: Library, t: TransferFacts, units: nat, equality: seq<byte>, e: Evidence)
    requires CheckProof(lib, t, e.proof, units, equality).None? && Begins(e.lo, t.commitmentLo) && Begins(e.hi, t.commitmentHi)
    requires Some(e.combined) == CombineCiphertext(lib.curve, GroupedOf(e.proof.context), Source)
    ensures Matches(lib, e) && Equals(lib, e, units, equality)
  {
    hide CombineCiphertext, Commit;
    SlicesOf(e.proof.context);
    StatementIs(lib, e, units);
  }

  lemma StatementIs(lib: Library, e: Evidence, units: nat)
    requires |e.proof.context| == 352
    ensures Statement(lib.curve, e.proof.context[..POINT_BYTES], e.combined, units)
            == e.proof.context[..32] + lib.curve.encode(e.combined.commitment) + lib.curve.encode(e.combined.handle)
               + lib.curve.encode(Commit(lib.curve.order, lib.curve.h, units, 0))
  {
  }

  // What the bytes of an accepted payload disclose: the Transfer signature in bytes 1 to 64, the proof
  // signature in 65 to 128, the amount, and the equality proof from 137 on.
  ghost predicate Discloses(lib: Library, ledger: Ledger, bytes: seq<byte>, d: Disclosed)
    requires |bytes| == 329
  {
    && Went(ledger, bytes[1..65]) && Went(ledger, bytes[65..129])
    && d == Disclosed(Number(bytes[129..137]), bytes[1..65])
    && exists e :: Shows(lib, ledger[bytes[1..65]], ledger[bytes[65..129]], d.units, bytes[137..], e)
  }

  lemma BytesIff(lib: Library, ledger: Ledger, bytes: seq<byte>, d: Disclosed)
    requires |bytes| == 329 && bytes[0] == 1
    ensures CheckBytes(lib, ledger, bytes) == Ok(d) <==> Discloses(lib, ledger, bytes, d)
  {
    hide CheckTransactions, ReadLittleEndian, Number, Shows;
    ReadsNumber(bytes[129..137]);
    if Went(ledger, bytes[1..65]) && Went(ledger, bytes[65..129]) {
      CheckedIff(lib, ledger[bytes[1..65]], ledger[bytes[65..129]], Number(bytes[129..137]), bytes[137..]);
    }
  }

  lemma ReadsPayload(lib: Library, ledger: Ledger, payload: string)
    ensures forall bytes :: Readable(payload, bytes) ==> VerifyDisclosure(lib, ledger, payload) == CheckBytes(lib, ledger, bytes)
    ensures VerifyDisclosure(lib, ledger, payload) != Err(MalformedPayload) ==> exists bytes :: Readable(payload, bytes)
  {
    hide CheckTransactions, Base64.IsUrlText, Base64.FromBase64Url, Fetch;
    if VerifyDisclosure(lib, ledger, payload) != Err(MalformedPayload) {
      assert Readable(payload, Base64.FromBase64Url(payload).value);
    }
  }

  /** The check, exactly, by position: a payload is accepted if and only if it is readable, both its
      transactions went through, and what their first Transfer and first validity proof say shows the
      amount in its bytes 129 to 136. */
  lemma AcceptedIff(lib: Library, ledger: Ledger, payload: string, d: Disclosed)
    ensures VerifyDisclosure(lib, ledger, payload) == Ok(d)
            <==> exists bytes :: Readable(payload, bytes) && Discloses(lib, ledger, bytes, d)
  {
    ReadsPayload(lib, ledger, payload);
    hide VerifyDisclosure, CheckBytes, Discloses;
    forall bytes | Readable(payload, bytes)
      ensures CheckBytes(lib, ledger, bytes) == Ok(d) <==> Discloses(lib, ledger, bytes, d)
    {
      BytesIff(lib, ledger, bytes, d);
    }
  }

  // The commitments of the Transfer are those of the proved ciphertexts.
  ghost predicate SameCommitments(e: Evidence)
    requires |e.proof.context| == 352
  {
    |e.lo| >= 32 && |e.hi| >= 32 && e.proof.context[96..128] == e.lo[..32] && e.proof.context[224..256] == e.hi[..32]
  }

  // The reason of a refusal, from two transactions that went through.
  ghost predicate FaultOf(lib: Library, transferTx: Transaction, proofTx: Transaction, units: nat, equality: seq<byte>, reason: Refusal) {
    match reason
    case NotATransfer => forall ix, account, lo, hi :: !TransferOf(lib, transferTx, ix, account, lo, hi)
    case WrongProofTransaction =>
      && (exists ix, account, lo, hi :: TransferOf(lib, transferTx, ix, account, lo, hi))
      && forall e :: !Linked(lib, transferTx, proofTx, e)
    case InvalidValidityProof =>
      exists e :: Linked(lib, transferTx, proofTx, e) && !(lib.validityHolds(e.proof) && |e.proof.context| == 352)
    case CiphertextMismatch =>
      exists e :: Linked(lib, transferTx, proofTx, e) && |e.proof.context| == 352 && !SameCommitments(e)
    case Thrown =>
      exists e :: Linked(lib, transferTx, proofTx, e) && |e.proof.context| == 352 && SameCommitments(e)
                  && forall c :: !Matches(lib, e.(combined := c))
    case ProofMismatch =>
      exists e :: Linked(lib, transferTx, proofTx, e) && Matches(lib, e) && !Equals(lib, e, units, equality)
    case _ => false
  }

  // The reason of a refusal, in the order in which the check finds it.
  ghost predicate RefusedFor(lib: Library, ledger: Ledger, bytes: seq<byte>, reason: Refusal)
    requires |bytes| == 329
  {
    var t, p := bytes[1..65], bytes[65..129];
    if t !in ledger then reason == NotFound
    else if ledger[t].failed then reason == FailedOnChain
    else if p !in ledger then reason == NotFound
    else if ledger[p].failed then reason == FailedOnChain
    else FaultOf(lib, ledger[t], ledger[p], Number(bytes[129..137]), bytes[137..], reason)
  }

  lemma LinkedFault(lib: Library, transferTx: Transaction, proofTx: Transaction, t: TransferFacts, units: nat, equality: seq<byte>, e: Evidence)
    requires Linked(lib, transferTx, proofTx, e) && Begins(e.lo, t.commitmentLo) && Begins(e.hi, t.commitmentHi)
    ensures var r := CheckProof(lib, t, e.proof, units, equality);
            r.Some? ==> FaultOf(lib, transferTx, proofTx, units, equality, r.value)
  {
    hide Linked, CombineCiphertext, Commit;
    var r := CheckProof(lib, t, e.proof, units, equality);
    if |e.proof.context| == 352 {
      SlicesOf(e.proof.context);
      var combined := CombineCiphertext(lib.curve, GroupedOf(e.proof.context), Source);
      if combined.Some? {
        var f := e.(combined := combined.value);
        assert Linked(lib, transferTx, proofTx, f) by { LinkedKeeps(lib, transferTx, proofTx, e, combined.value); }
        StatementIs(lib, f, units);
      }
    }
  }

  lemma LinkedKeeps(lib: Library, transferTx: Transaction, proofTx: Transaction, e: Evidence, c: Cipher)
    requires Linked(lib, transferTx, proofTx, e)
    ensures Linked(lib, transferTx, proofTx, e.(combined := c))
  {
  }

  lemma FaultIsFound(lib: Library, transferTx: Transaction, proofTx: Transaction, units: nat, equality: seq<byte>)
    ensures var r := CheckTransactions(lib, transferTx.instructions, proofTx.instructions, units, equality);
            r.Some? ==> FaultOf(lib, transferTx, proofTx, units, equality, r.value)
  {
    TransferIsRead(lib, transferTx);
    ValidityIsRead(lib, proofTx);
    hide ReadTransfer, ReadValidity, TransferOf, ValidityOf, CheckProof;
    var r := CheckTransactions(lib, transferTx.instructions, proofTx.instructions, units, equality);
    if ReadTransfer(lib, transferTx.instructions).Some? && ReadValidity(lib, proofTx.instructions).Some? {
      var t := ReadTransfer(lib, transferTx.instructions).value;
      var ix, account, lo, hi :| TransferOf(lib, transferTx, ix, account, lo, hi);
      var vix, a, proof :| ValidityOf(lib, proofTx, vix, a, proof);
      if a == account {
        LinkedFault(lib, transferTx, proofTx, t, units, equality, Evidence(ix, vix, account, lo, hi, proof, Cipher(0, 0)));
      }
    }
  }

  /** Every refusal says what is wrong, in terms of the payload and its two transactions. */
  lemma RefusalMeans(lib: Library, ledger: Ledger, payload: string)
    requires VerifyDisclosure(lib, ledger, payload).Err?
    ensures var reason := VerifyDisclosure(lib, ledger, payload).error;
      if forall bytes :: !Readable(payload, bytes) then reason == MalformedPayload
      else exists bytes :: Readable(payload, bytes) && RefusedFor(lib, ledger, bytes, reason)
  {
    ReadsPayload(lib, ledger, payload);
    hide VerifyDisclosure, CheckTransactions, FaultOf, ReadLittleEndian, Number;
    if bytes :| Readable(payload, bytes) {
      ReadsNumber(bytes[129..137]);
      var t, p := bytes[1..65], bytes[65..129];
      if t in ledger && p in ledger {
        FaultIsFound(lib, ledger[t], ledger[p], Number(bytes[129..137]), bytes[137..]);
      }
      assert RefusedFor(lib, ledger, bytes, VerifyDisclosure(lib, ledger, payload).error);
    }
  }

  // What the chain serves for an honest contribution: a Transfer, and the kept proof transaction with a
  // proof for it made under the supporter's key.
  ghost predicate Honest(lib: Library, ledger: Ledger, keys: Keypair, c: Contribution, e: Evidence) {
    && |c.transfer| == |c.proof| == 64 && Went(ledger, c.transfer)
    && c.proof in ledger && ledger[c.proof] == Transaction(false, c.wire)
    && Linked(lib, ledger[c.transfer], ledger[c.proof], e)
    && lib.validityHolds(e.proof) && |e.proof.context| == 352 && SameCommitments(e)
    && e.proof.context[..32] == lib.curve.encode(keys.pubkey)
    && keys.pubkey < lib.curve.order && KeyOf(lib.curve.order, lib.curve.h, keys.secret, keys.pubkey)
  }

  /** Completeness, from the wire. With complete provers, a payload made for a contribution whose two
      transactions the chain serves is accepted, with the amount it was made for. */
  lemma MadeIsAccepted(lib: Library, ledger: Ledger, keys: Keypair, c: Contribution, e: Evidence)
    requires Complete(lib) && Honest(lib, ledger, keys, c, e) && CreateDisclosure(lib, keys, c).Ok?
    ensures var (payload, units) := CreateDisclosure(lib, keys, c).value;
            VerifyDisclosure(lib, ledger, payload) == Ok(Disclosed(units, c.transfer))
  {
    TransferIsRead(lib, ledger[c.transfer]);
    ValidityIsRead(lib, ledger[c.proof]);
    SlicesOf(e.proof.context);
    hide TransferOf, ValidityOf, ReadTransfer, ReadValidity, GroupedOf, CreateDisclosure, VerifyDisclosure, Complete;
    var t := ReadTransfer(lib, ledger[c.transfer].instructions).value;
    DisclosureComplete(lib, ledger, keys, c, t, ValidityFacts(e.account, e.proof));
  }

  /** For every amount below 2^48 whose halves were sealed under the supporter's key, the payload is
      made, and it is accepted with that amount. */
  lemma EveryAmountIsDisclosed(lib: Library, ledger: Ledger, keys: Keypair, c: Contribution, e: Evidence, amount: nat,
                               openingLo: int, openingHi: int, recipients: Keys)
    requires Complete(lib) && Honest(lib, ledger, keys, c, e) && amount < 0x1_0000_0000_0000 && recipients.source == keys.pubkey
    requires e.proof.context[96..224] == Grouped(lib.curve, amount % 65536, openingLo, recipients)
    requires e.proof.context[224..352] == Grouped(lib.curve, amount / 65536, openingHi, recipients)
    ensures CreateDisclosure(lib, keys, c).Ok?
    ensures VerifyDisclosure(lib, ledger, CreateDisclosure(lib, keys, c).value.0) == Ok(Disclosed(amount, c.transfer))
  {
    ValidityIsRead(lib, ledger[c.proof]);
    SlicesOf(e.proof.context);
    MadeIsAccepted(lib, ledger, keys, c, e) by {
      assert CreateDisclosure(lib, keys, c).Ok? by {
        DisclosureIsMade(lib, keys, c, ValidityFacts(e.account, e.proof), amount, openingLo, openingHi, recipients);
      }
    }
    DisclosureIsMade(lib, keys, c, ValidityFacts(e.account, e.proof), amount, openingLo, openingHi, recipients);
  }

  // The proof in the transaction the supporter kept: that of its first validity instruction, with a whole
  // context.
  ghost predicate Kept(lib: Library, wire: Option<seq<Instruction>>, proof: ValidityProof) {
    && wire.Some? && |proof.context| == 352
    && exists i: nat :: && FirstOf(wire.value, lib.prover, [lib.validityTag], i)
                        && lib.validityProof(wire.value[i].data[1..]) == Some(proof)
  }

  lemma ExtractsKept(lib: Library, wire: Option<seq<Instruction>>)
    ensures forall proof :: Kept(lib, wire, proof) ==>
              ExtractContext(lib, wire) == Some(ValidityContext(proof.context[96..224], proof.context[224..352]))
    ensures ExtractContext(lib, wire).Some? ==> exists proof :: Kept(lib, wire, proof)
  {
    forall proof | Kept(lib, wire, proof)
      ensures ExtractContext(lib, wire) == Some(ValidityContext(proof.context[96..224], proof.context[224..352]))
    {
      var i: nat :| FirstOf(wire.value, lib.prover, [lib.validityTag], i)
                    && lib.validityProof(wire.value[i].data[1..]) == Some(proof);
      FindsValidity(lib, wire.value, i);
    }
    if ExtractContext(lib, wire).Some? {
      var i := FoundValidity(lib, wire.value);
      FindsValidity(lib, wire.value, i);
      assert Kept(lib, wire, lib.validityProof(wire.value[i].data[1..]).value);
    }
  }

  // What making a payload comes to, with the context of the kept proof.
  ghost predicate MadeFrom(lib: Library, keys: Keypair, context: seq<byte>, r: Result<(string, nat), Failure>)
    requires |context| == 352
  {
    if !FourPoints(lib.curve, context[96..224]) || !FourPoints(lib.curve, context[224..352]) then r == Err(Malformed)
    else
      var units := Reported(lib.curve.order, HalfPlain(lib.curve, keys.secret, context[96..224], 32),
                            HalfPlain(lib.curve, keys.secret, context[224..352], 32));
      if units.Ok? then r.Ok? && r.value.1 == units.value else r == Err(WrongKey)
  }

  /** When a payload is made, and why not: malformed exactly when the kept transaction holds no readable
      ciphertext, wrong key exactly when the supporter's secret does not reach the amount; otherwise it is
      made for the amount that secret reads from the handle of the source. */
  lemma CreatedIff(lib: Library, keys: Keypair, c: Contribution)
    ensures forall proof :: Kept(lib, c.wire, proof) ==> MadeFrom(lib, keys, proof.context, CreateDisclosure(lib, keys, c))
    ensures (forall proof :: !Kept(lib, c.wire, proof)) ==> CreateDisclosure(lib, keys, c) == Err(Malformed)
  {
    ExtractsKept(lib, c.wire);
    hide FirstOf, ExtractContext, FourPoints, HalfPlain, Reported, Statement, Base64.ToBase64Url;
    forall proof | Kept(lib, c.wire, proof)
      ensures MadeFrom(lib, keys, proof.context, CreateDisclosure(lib, keys, c))
    {
      var context := ValidityContext(proof.context[96..224], proof.context[224..352]);
      ContributionReads(lib.curve, keys.secret, context, Source);
      ReadsCombine(lib.curve.order, keys.secret, context, lib.curve);
    }
  }

  lemma ReadsCombine(q: order, secret: int, context: ValidityContext, curve: Curve)
    ensures DecryptContribution(curve, secret, context, Source).Ok? ==> CombineCiphertext(curve, context, Source).Some?
    ensures forall lo, hi :: Reported(q, lo, hi).Err? ==> Reported(q, lo, hi) == Err(WrongKey)
  {
  }
}
