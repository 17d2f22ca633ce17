/** Disclosing one contribution to a third party: the payload a supporter makes, and the check a
    stranger runs against the chain. The zero-knowledge verifiers and the wire formats of the token
    library are parameters; their ideal behaviour is stated as `Sound` and `Complete`. */
module Disclosure {
  import opened Common
  import opened Group
  import opened Decrypt
  import Base64

  datatype Instruction = Instruction(program: Address, data: seq<byte>, accounts: seq<Option<Address>>)

  // A fetched transaction: whether it failed, and its instructions if the message has any.
  datatype Transaction = Transaction(failed: bool, instructions: Option<seq<Instruction>>)

  type Ledger = map<seq<byte>, Transaction>

  datatype ValidityProof = ValidityProof(context: seq<byte>, proof: seq<byte>)

  datatype Keypair = Keypair(secret: nat, pubkey: Point)

  /** The libraries the codec stands on. `transferCiphertexts` decodes the auditor halves out of a
      Transfer's data, `validityProof` parses inline proof data, and `equalityProof` proves that the
      ciphertext and the commitment of a statement hold the same amount. */
  datatype Library = Library(
    curve: Curve, token: Address, prover: Address, transferTag: (byte, byte), validityTag: byte,
    transferCiphertexts: seq<byte> -> (seq<byte>, seq<byte>),
    validityProof: seq<byte> -> Option<ValidityProof>,
    validityHolds: ValidityProof -> bool,
    equalityProof: (nat, seq<byte>, nat) -> seq<byte>,
    equalityHolds: (seq<byte>, seq<byte>) -> bool)

  datatype Refusal =
    | MalformedPayload | NotFound | FailedOnChain | NotATransfer | WrongProofTransaction
    | InvalidValidityProof | CiphertextMismatch | ProofMismatch | Thrown

  datatype Contribution = Contribution(transfer: seq<byte>, proof: seq<byte>, wire: Option<seq<Instruction>>)

  datatype Disclosed = Disclosed(units: nat, transfer: seq<byte>)

  const VALIDITY_CONTEXT_BYTES: nat := 352
  const EQUALITY_PROOF_BYTES: nat := 192
  const SIGNATURE_BYTES: nat := 64
  const PAYLOAD_VERSION: byte := 1
  const AMOUNT_AT: nat := 129
  const PROOF_AT: nat := 137
  const PAYLOAD_BYTES: nat := 329
  const PAYLOAD_LETTERS: nat := 439
  const TRANSFER_VALIDITY_ACCOUNT: nat := 4
  const VERIFY_CONTEXT_ACCOUNT: nat := 0

  function AccountAt(ix: Instruction, i: nat): Option<Address> {
    if i < |ix.accounts| then ix.accounts[i] else None
  }

  function Head(bytes: seq<byte>, n: nat): seq<byte> { bytes[..Min(n, |bytes|)] }

  predicate IsTransfer(lib: Library, ix: Instruction) {
    ix.program == lib.token && |ix.data| >= 2 && ix.data[0] == lib.transferTag.0 && ix.data[1] == lib.transferTag.1
  }

  predicate IsValidity(lib: Library, ix: Instruction) {
    ix.program == lib.prover && |ix.data| >= 1 && ix.data[0] == lib.validityTag
  }

  function FindTransfer(lib: Library, ixs: seq<Instruction>): Option<Instruction> {
    if ixs == [] then None else if IsTransfer(lib, ixs[0]) then Some(ixs[0]) else FindTransfer(lib, ixs[1..])
  }

  function FindValidity(lib: Library, ixs: seq<Instruction>): (r: Option<Instruction>)
    ensures r.Some? ==> IsValidity(lib, r.value)
  {
    if ixs == [] then None else if IsValidity(lib, ixs[0]) then Some(ixs[0]) else FindValidity(lib, ixs[1..])
  }

  datatype TransferFacts = TransferFacts(validityAccount: Address, commitmentLo: seq<byte>, commitmentHi: seq<byte>)

  function ReadTransfer(lib: Library, wire: Option<seq<Instruction>>): Option<TransferFacts> {
    if wire.None? then None
    else match FindTransfer(lib, wire.value)
      case None => None
      case Some(ix) =>
        match AccountAt(ix, TRANSFER_VALIDITY_ACCOUNT)
        case None => None
        case Some(account) =>
          var (lo, hi) := lib.transferCiphertexts(ix.data);
          Some(TransferFacts(account, Head(lo, POINT_BYTES), Head(hi, POINT_BYTES)))
  }

  datatype ValidityFacts = ValidityFacts(account: Address, proof: ValidityProof)

  // `None` also where the proof data does not parse.
  function ReadValidity(lib: Library, wire: Option<seq<Instruction>>): Option<ValidityFacts> {
    if wire.None? then None
    else match FindValidity(lib, wire.value)
      case None => None
      case Some(ix) =>
        match (AccountAt(ix, VERIFY_CONTEXT_ACCOUNT), lib.validityProof(ix.data[1..]))
        case (Some(account), Some(proof)) => Some(ValidityFacts(account, proof))
        case _ => None
  }

  function GroupedOf(context: seq<byte>): ValidityContext
    requires |context| == VALIDITY_CONTEXT_BYTES
  {
    ValidityContext(context[96..224], context[224..352])
  }

  // What the supporter's own copy of the proof transaction says.
  function ExtractContext(lib: Library, wire: Option<seq<Instruction>>): Option<ValidityContext> {
    if wire.None? then None
    else match FindValidity(lib, wire.value)
      case None => None
      case Some(ix) =>
        match lib.validityProof(ix.data[1..])
        case None => None
        case Some(proof) =>
          if |proof.context| == VALIDITY_CONTEXT_BYTES then Some(GroupedOf(proof.context)) else None
  }

  function LittleEndian(x: nat, n: nat): (bytes: seq<byte>)
    ensures |bytes| == n
  {
    if n == 0 then [] else [x % 256] + LittleEndian(x / 256, n - 1)
  }

  function ReadLittleEndian(bytes: seq<byte>): nat {
    if bytes == [] then 0 else bytes[0] + 256 * ReadLittleEndian(bytes[1..])
  }

  function Pow256(n: nat): nat { if n == 0 then 1 else 256 * Pow256(n - 1) }

  lemma {:induction false} ReadBack(x: nat, n: nat)
    requires x < Pow256(n)
    ensures ReadLittleEndian(LittleEndian(x, n)) == x
    decreases n
  {
    if n > 0 {
      ReadBack(x / 256, n - 1);
      assert LittleEndian(x, n)[1..] == LittleEndian(x / 256, n - 1);
    }
  }

  /** Encodings that are read back do exist for every order up to 256 bits: little-endian numbers. */
  lemma PlainCurveIsLawful(q: order, h: Point)
    requires q <= Pow256(32)
    ensures Lawful(Curve(q, h, (p: Point) => LittleEndian(p, POINT_BYTES), (b: seq<byte>) => Some(ReadLittleEndian(b))))
  {
    forall p: Point | p < q ensures ReadLittleEndian(LittleEndian(p, POINT_BYTES)) == p {
      ReadBack(p, POINT_BYTES);
    }
  }

  lemma {:induction false} ReadBounded(bytes: seq<byte>)
    ensures ReadLittleEndian(bytes) < Pow256(|bytes|)
  {
    if bytes != [] {
      ReadBounded(bytes[1..]);
    }
  }

  lemma Pow256Eight()
    ensures Pow256(8) == U64_MAX + 1
  {
    assert Pow256(4) == 0x1_0000_0000;
    assert Pow256(8) == 256 * (256 * (256 * (256 * Pow256(4))));
  }

  // pubkey, ciphertext, commitment: the statement of an equality proof.
  function Statement(curve: Curve, pubkey: seq<byte>, cipher: Cipher, units: nat): seq<byte> {
    pubkey + CipherBytes(curve, cipher) + curve.encode(Commit(curve.order, curve.h, units, 0))
  }

  function Layout(transfer: seq<byte>, proofTx: seq<byte>, units: nat, proof: seq<byte>): seq<byte> {
    [PAYLOAD_VERSION] + transfer + proofTx + LittleEndian(units, 8) + proof
  }

  function CreateDisclosure(lib: Library, keys: Keypair, contribution: Contribution)
    : Result<(string, nat), Failure>
  {
    match ExtractContext(lib, contribution.wire)
    case None => Err(Malformed)
    case Some(context) =>
      match DecryptContribution(lib.curve, keys.secret, context, Source)
      case Err(reason) => Err(if reason == WrongKey then WrongKey else Malformed)
      case Ok(units) =>
        match CombineCiphertext(lib.curve, context, Source)
        case None => Err(Malformed)
        case Some(combined) =>
          var statement := Statement(lib.curve, lib.curve.encode(keys.pubkey), combined, units);
          var proof := lib.equalityProof(keys.secret, statement, units);
          Ok((Base64.ToBase64Url(Layout(contribution.transfer, contribution.proof, units, proof)), units))
  }

  function Fetch(ledger: Ledger, signature: seq<byte>): Result<Option<seq<Instruction>>, Refusal> {
    if signature !in ledger then Err(NotFound)
    else if ledger[signature].failed then Err(FailedOnChain)
    else Ok(ledger[signature].instructions)
  }

  // From the two transactions on: is the proof about the ciphertext the Transfer carried?
  function CheckProof(lib: Library, transfer: TransferFacts, proof: ValidityProof, units: nat, equality: seq<byte>)
    : Option<Refusal>
  {
    if !lib.validityHolds(proof) || |proof.context| != VALIDITY_CONTEXT_BYTES then Some(InvalidValidityProof)
    else
      var grouped := GroupedOf(proof.context);
      if grouped.groupedLo[..POINT_BYTES] != transfer.commitmentLo
         || grouped.groupedHi[..POINT_BYTES] != transfer.commitmentHi then Some(CiphertextMismatch)
      else match CombineCiphertext(lib.curve, grouped, Source)
        case None => Some(Thrown)
        case Some(combined) =>
          if lib.equalityHolds(Statement(lib.curve, proof.context[..POINT_BYTES], combined, units), equality)
          then None else Some(ProofMismatch)
  }

  function CheckTransactions(lib: Library, transferWire: Option<seq<Instruction>>, proofWire: Option<seq<Instruction>>,
                             units: nat, equality: seq<byte>): Option<Refusal>
  {
    match ReadTransfer(lib, transferWire)
    case None => Some(NotATransfer)
    case Some(transfer) =>
      match ReadValidity(lib, proofWire)
      case None => Some(WrongProofTransaction)
      case Some(validity) =>
        if validity.account != transfer.validityAccount then Some(WrongProofTransaction)
        else CheckProof(lib, transfer, validity.proof, units, equality)
  }

  function CheckBytes(lib: Library, ledger: Ledger, bytes: seq<byte>): Result<Disclosed, Refusal> {
    if |bytes| != PAYLOAD_BYTES || bytes[0] != PAYLOAD_VERSION then Err(MalformedPayload)
    else
      var transfer, proofTx := bytes[1..1 + SIGNATURE_BYTES], bytes[1 + SIGNATURE_BYTES..AMOUNT_AT];
      var units := ReadLittleEndian(bytes[AMOUNT_AT..PROOF_AT]);
      match Fetch(ledger, transfer)
      case Err(reason) => Err(reason)
      case Ok(transferWire) =>
        match Fetch(ledger, proofTx)
        case Err(reason) => Err(reason)
        case Ok(proofWire) =>
          match CheckTransactions(lib, transferWire, proofWire, units, bytes[PROOF_AT..])
          case Some(reason) => Err(reason)
          case None => Ok(Disclosed(units, transfer))
  }

  function VerifyDisclosure(lib: Library, ledger: Ledger, payload: string): Result<Disclosed, Refusal> {
    if |payload| != PAYLOAD_LETTERS || !Base64.IsUrlText(payload) then Err(MalformedPayload)
    else match Base64.FromBase64Url(payload)
      case None => Err(MalformedPayload)
      case Some(bytes) => CheckBytes(lib, ledger, bytes)
  }

  // What a validity proof says: both grouped ciphertexts are made under the three keys it names.
  datatype ValidityWitness = ValidityWitness(keys: Keys, lo: int, openingLo: int, hi: int, openingHi: int)

  function SourceCipher(curve: Curve, w: ValidityWitness): Cipher {
    Combine(curve.order, Encrypt(curve.order, curve.h, w.lo, w.openingLo, w.keys.source),
            Encrypt(curve.order, curve.h, w.hi, w.openingHi, w.keys.source))
  }

  /** What binds a commitment: nobody can relate the two generators, so whoever proves an opening of a
      point proves the one amount it can be amountOf to. `Amounts` names that amount. */
  type Amounts = Point -> nat

  predicate Opens(curve: Curve, amountOf: Amounts, x: int, opening: int) {
    amountOf(Commit(curve.order, curve.h, x, opening)) == Mod(curve.order, x)
  }

  predicate Reduced(curve: Curve, keys: Keys) {
    keys.source < curve.order && keys.destination < curve.order && keys.auditor < curve.order
  }

  predicate ValidContext(curve: Curve, amountOf: Amounts, context: seq<byte>, w: ValidityWitness) {
    && Reduced(curve, w.keys) && Opens(curve, amountOf, w.lo, w.openingLo) && Opens(curve, amountOf, w.hi, w.openingHi)
    && context == curve.encode(w.keys.source) + curve.encode(w.keys.destination) + curve.encode(w.keys.auditor)
                  + Grouped(curve, w.lo, w.openingLo, w.keys) + Grouped(curve, w.hi, w.openingHi, w.keys)
  }

  // What an equality proof says: the ciphertext under the key and the commitment hold one amount.
  datatype EqualityWitness = EqualityWitness(keys: Keypair, cipher: Cipher, amount: int, opening: int)

  predicate IsCipher(curve: Curve, c: Cipher) { c.commitment < curve.order && c.handle < curve.order }

  predicate EqualStatement(curve: Curve, amountOf: Amounts, statement: seq<byte>, w: EqualityWitness) {
    && w.keys.pubkey < curve.order && IsCipher(curve, w.cipher) && Opens(curve, amountOf, w.amount, w.opening)
    && KeyOf(curve.order, curve.h, w.keys.secret, w.keys.pubkey)
    && Plain(curve.order, w.keys.secret, w.cipher) == Mod(curve.order, w.amount)
    && statement == curve.encode(w.keys.pubkey) + CipherBytes(curve, w.cipher)
                    + curve.encode(Commit(curve.order, curve.h, w.amount, w.opening))
  }

  // What a verifier commits to in the open holds what it says.
  ghost predicate OpenAmounts(curve: Curve, amountOf: Amounts) {
    forall x: nat :: x <= U64_MAX ==> amountOf(Commit(curve.order, curve.h, x, 0)) == x
  }

  ghost predicate Sound(lib: Library, amountOf: Amounts) {
    && Lawful(lib.curve) && OpenAmounts(lib.curve, amountOf)
    && (forall p :: lib.validityHolds(p) ==> exists w :: ValidContext(lib.curve, amountOf, p.context, w))
    && (forall s, p :: lib.equalityHolds(s, p) ==> exists w :: EqualStatement(lib.curve, amountOf, s, w))
  }

  // A proof made of a true statement is accepted.
  ghost predicate Proves(lib: Library, keys: Keypair, cipher: Cipher, units: nat) {
    var statement := Statement(lib.curve, lib.curve.encode(keys.pubkey), cipher, units);
    && |lib.equalityProof(keys.secret, statement, units)| == EQUALITY_PROOF_BYTES
    && lib.equalityHolds(statement, lib.equalityProof(keys.secret, statement, units))
  }

  ghost predicate Complete(lib: Library) {
    && Lawful(lib.curve)
    && (forall keys: Keypair, cipher: Cipher, units: nat ::
          KeyOf(lib.curve.order, lib.curve.h, keys.secret, keys.pubkey) && keys.pubkey < lib.curve.order
          && IsCipher(lib.curve, cipher) && units <= U64_MAX
          && Plain(lib.curve.order, keys.secret, cipher) == units ==>
            Proves(lib, keys, cipher, units))
  }

  lemma EncodeInjective(curve: Curve, a: Point, b: Point)
    requires Lawful(curve) && a < curve.order && b < curve.order && curve.encode(a) == curve.encode(b)
    ensures a == b
  {
    assert curve.decode(curve.encode(a)) == Some(a);
  }

  lemma Split4(a: seq<byte>, b: seq<byte>, c: seq<byte>, d: seq<byte>, e: seq<byte>, f: seq<byte>, g: seq<byte>, h: seq<byte>)
    requires |a| == |b| == |c| == |d| == |e| == |f| == |g| == |h| == POINT_BYTES
    requires a + (b + c) + d == e + (f + g) + h
    ensures a == e && b == f && c == g && d == h
  {
    var s := a + (b + c) + d;
    assert s[..32] == a && s[32..64] == b && s[64..96] == c && s[96..] == d;
    assert s[..32] == e && s[32..64] == f && s[64..96] == g && s[96..] == h;
  }

  // Two statements are the same bytes only when they are about the same key, cipher and commitment.
  lemma StatementParts(curve: Curve, amountOf: Amounts, pubkey: Point, cipher: Cipher, units: nat, w: EqualityWitness)
    requires Lawful(curve) && OpenAmounts(curve, amountOf) && pubkey < curve.order && IsCipher(curve, cipher)
    requires units <= U64_MAX && EqualStatement(curve, amountOf, Statement(curve, curve.encode(pubkey), cipher, units), w)
    ensures w.keys.pubkey == pubkey && w.cipher == cipher && Mod(curve.order, w.amount) == units
  {
    var mine := Commit(curve.order, curve.h, units, 0);
    var theirs := Commit(curve.order, curve.h, w.amount, w.opening);
    Split4(curve.encode(pubkey), curve.encode(cipher.commitment), curve.encode(cipher.handle), curve.encode(mine),
           curve.encode(w.keys.pubkey), curve.encode(w.cipher.commitment), curve.encode(w.cipher.handle),
           curve.encode(theirs));
    EncodeInjective(curve, pubkey, w.keys.pubkey);
    EncodeInjective(curve, cipher.commitment, w.cipher.commitment);
    EncodeInjective(curve, cipher.handle, w.cipher.handle);
    EncodeInjective(curve, mine, theirs);
  }

  lemma ContextParts(curve: Curve, amountOf: Amounts, context: seq<byte>, w: ValidityWitness)
    requires Lawful(curve) && ValidContext(curve, amountOf, context, w)
    ensures |context| == VALIDITY_CONTEXT_BYTES && context[..POINT_BYTES] == curve.encode(w.keys.source)
    ensures GroupedOf(context)
            == ValidityContext(Grouped(curve, w.lo, w.openingLo, w.keys), Grouped(curve, w.hi, w.openingHi, w.keys))
  {
    GroupedReads(curve, w.lo, w.openingLo, w.keys, Source);
    GroupedReads(curve, w.hi, w.openingHi, w.keys, Source);
    var a, b, c := curve.encode(w.keys.source), curve.encode(w.keys.destination), curve.encode(w.keys.auditor);
    var lo, hi := Grouped(curve, w.lo, w.openingLo, w.keys), Grouped(curve, w.hi, w.openingHi, w.keys);
    assert context == a + b + c + lo + hi;
    assert context[96..224] == lo && context[224..352] == hi && context[..32] == a;
  }

  lemma GroupedCommitment(curve: Curve, x: int, opening: int, keys: Keys)
    requires Lawful(curve)
    ensures |Grouped(curve, x, opening, keys)| == GROUPED_BYTES
    ensures Grouped(curve, x, opening, keys)[..POINT_BYTES] == curve.encode(Commit(curve.order, curve.h, x, opening))
    ensures curve.decode(Grouped(curve, x, opening, keys)[..POINT_BYTES]) == Some(Commit(curve.order, curve.h, x, opening))
  {
    GroupedReads(curve, x, opening, keys, Source);
    assert Grouped(curve, x, opening, keys)[..POINT_BYTES] == curve.encode(Commit(curve.order, curve.h, x, opening));
  }

  lemma ContextCipher(curve: Curve, amountOf: Amounts, context: seq<byte>, w: ValidityWitness)
    requires Lawful(curve) && ValidContext(curve, amountOf, context, w)
    ensures |context| == VALIDITY_CONTEXT_BYTES
    ensures CombineCiphertext(curve, GroupedOf(context), Source) == Some(SourceCipher(curve, w))
  {
    ContextParts(curve, amountOf, context, w);
    GroupedReads(curve, w.lo, w.openingLo, w.keys, Source);
    GroupedReads(curve, w.hi, w.openingHi, w.keys, Source);
  }

  // The plaintext of a well-formed ciphertext under its own key.
  lemma SourcePlain(curve: Curve, w: ValidityWitness, secret: nat)
    requires KeyOf(curve.order, curve.h, secret, w.keys.source)
    ensures Plain(curve.order, secret, SourceCipher(curve, w))
            == Mod(curve.order, Mod(curve.order, w.lo) + SCALE * Mod(curve.order, w.hi))
  {
    var q, h := curve.order, curve.h;
    PlainOfEncrypt(q, h, w.lo, w.openingLo, w.keys.source, secret);
    PlainOfEncrypt(q, h, w.hi, w.openingHi, w.keys.source, secret);
    PlainOfCombine(q, secret, Encrypt(q, h, w.lo, w.openingLo, w.keys.source),
                   Encrypt(q, h, w.hi, w.openingHi, w.keys.source));
    ModAdd(q, Mod(q, w.lo), SCALE * Mod(q, w.hi));
  }

  // The amount a Transfer moved, as its two commitments pin it down.
  function Committed(curve: Curve, amountOf: Amounts, transfer: TransferFacts): Option<nat> {
    match (curve.decode(transfer.commitmentLo), curve.decode(transfer.commitmentHi))
    case (Some(lo), Some(hi)) => Some(Mod(curve.order, amountOf(lo) + SCALE * amountOf(hi)))
    case _ => None
  }

  // What the validity witness says about the commitments of the Transfer.
  predicate Carries(curve: Curve, transfer: TransferFacts, w: ValidityWitness) {
    && curve.decode(transfer.commitmentLo) == Some(Commit(curve.order, curve.h, w.lo, w.openingLo))
    && curve.decode(transfer.commitmentHi) == Some(Commit(curve.order, curve.h, w.hi, w.openingHi))
  }

  // What the two proofs of an accepted payload say.
  lemma CheckedStatement(lib: Library, amountOf: Amounts, transfer: TransferFacts, proof: ValidityProof, units: nat,
                         equality: seq<byte>) returns (w: ValidityWitness, e: EqualityWitness)
    requires Sound(lib, amountOf) && units <= U64_MAX && CheckProof(lib, transfer, proof, units, equality).None?
    ensures ValidContext(lib.curve, amountOf, proof.context, w) && Carries(lib.curve, transfer, w)
    ensures EqualStatement(lib.curve, amountOf, Statement(lib.curve, lib.curve.encode(w.keys.source),
                                                        SourceCipher(lib.curve, w), units), e)
  {
    var curve, context := lib.curve, proof.context;
    w :| ValidContext(curve, amountOf, context, w);
    ContextParts(curve, amountOf, context, w);
    ContextCipher(curve, amountOf, context, w);
    GroupedCommitment(curve, w.lo, w.openingLo, w.keys);
    GroupedCommitment(curve, w.hi, w.openingHi, w.keys);
    var statement := Statement(curve, curve.encode(w.keys.source), SourceCipher(curve, w), units);
    assert lib.equalityHolds(statement, equality);
    e :| EqualStatement(curve, amountOf, statement, e);
  }

  // The statement ties the amount to the plaintext under the source key.
  lemma StatedAmount(curve: Curve, amountOf: Amounts, context: seq<byte>, transfer: TransferFacts, units: nat,
                     w: ValidityWitness, e: EqualityWitness)
    requires Lawful(curve) && OpenAmounts(curve, amountOf) && units <= U64_MAX
    requires ValidContext(curve, amountOf, context, w) && Carries(curve, transfer, w)
    requires EqualStatement(curve, amountOf, Statement(curve, curve.encode(w.keys.source), SourceCipher(curve, w), units), e)
    ensures Committed(curve, amountOf, transfer) == Some(units)
  {
    StatementParts(curve, amountOf, w.keys.source, SourceCipher(curve, w), units, e);
    SourcePlain(curve, w, e.keys.secret);
  }

  lemma CheckedIsCommitted(lib: Library, amountOf: Amounts, transfer: TransferFacts, proof: ValidityProof, units: nat,
                           equality: seq<byte>)
    requires Sound(lib, amountOf) && units <= U64_MAX && CheckProof(lib, transfer, proof, units, equality).None?
    ensures Committed(lib.curve, amountOf, transfer) == Some(units)
  {
    var w, e := CheckedStatement(lib, amountOf, transfer, proof, units, equality);
    StatedAmount(lib.curve, amountOf, proof.context, transfer, units, w, e);
  }

  /** Soundness. With sound proof verifiers, an accepted disclosure names a Transfer that went
      through, and its amount is the one that Transfer's own commitments hold. */
  lemma DisclosureSound(lib: Library, amountOf: Amounts, ledger: Ledger, payload: string)
    requires Sound(lib, amountOf) && VerifyDisclosure(lib, ledger, payload).Ok?
    ensures var d := VerifyDisclosure(lib, ledger, payload).value;
      && d.transfer in ledger && !ledger[d.transfer].failed
      && ReadTransfer(lib, ledger[d.transfer].instructions).Some?
      && Committed(lib.curve, amountOf, ReadTransfer(lib, ledger[d.transfer].instructions).value) == Some(d.units)
  {
    var bytes := Base64.FromBase64Url(payload).value;
    var amount := bytes[AMOUNT_AT..PROOF_AT];
    ReadBounded(amount);
    Pow256Eight();
    AcceptedTransactions(lib, amountOf, ledger, bytes);
  }

  lemma AcceptedTransactions(lib: Library, amountOf: Amounts, ledger: Ledger, bytes: seq<byte>)
    requires Sound(lib, amountOf) && CheckBytes(lib, ledger, bytes).Ok?
    requires ReadLittleEndian(bytes[AMOUNT_AT..PROOF_AT]) <= U64_MAX
    ensures var d := CheckBytes(lib, ledger, bytes).value;
      && d.transfer in ledger && !ledger[d.transfer].failed
      && ReadTransfer(lib, ledger[d.transfer].instructions).Some?
      && Committed(lib.curve, amountOf, ReadTransfer(lib, ledger[d.transfer].instructions).value) == Some(d.units)
  {
    var d := CheckBytes(lib, ledger, bytes).value;
    var transfer := ReadTransfer(lib, ledger[d.transfer].instructions).value;
    var proofTx := bytes[1 + SIGNATURE_BYTES..AMOUNT_AT];
    var validity := ReadValidity(lib, ledger[proofTx].instructions).value;
    CheckedIsCommitted(lib, amountOf, transfer, validity.proof, d.units, bytes[PROOF_AT..]);
  }

  /** No two payloads disclose different amounts for one Transfer. */
  lemma OneAmountPerTransfer(lib: Library, amountOf: Amounts, ledger: Ledger, payload: string, other: string)
    requires Sound(lib, amountOf) && VerifyDisclosure(lib, ledger, payload).Ok? && VerifyDisclosure(lib, ledger, other).Ok?
    requires VerifyDisclosure(lib, ledger, payload).value.transfer == VerifyDisclosure(lib, ledger, other).value.transfer
    ensures VerifyDisclosure(lib, ledger, payload) == VerifyDisclosure(lib, ledger, other)
  {
    DisclosureSound(lib, amountOf, ledger, payload);
    DisclosureSound(lib, amountOf, ledger, other);
  }

  /** With the ranges the token program proves of every Transfer, the committed amount is the integer
      `lo + 2^16 hi`. */
  lemma CommittedInRange(curve: Curve, amountOf: Amounts, t: TransferFacts, lo: Point, hi: Point)
    requires curve.decode(t.commitmentLo) == Some(lo) && curve.decode(t.commitmentHi) == Some(hi)
    requires amountOf(lo) < 65536 && amountOf(hi) < 0x1_0000_0000
    ensures Committed(curve, amountOf, t) == Some(amountOf(lo) + 65536 * amountOf(hi))
  {
    ModSmall(curve.order, amountOf(lo) + SCALE * amountOf(hi));
  }

  lemma ValidCombines(lib: Library, amountOf: Amounts, proof: ValidityProof)
    requires Sound(lib, amountOf) && lib.validityHolds(proof)
    ensures |proof.context| == VALIDITY_CONTEXT_BYTES
    ensures CombineCiphertext(lib.curve, GroupedOf(proof.context), Source).Some?
  {
    var w :| ValidContext(lib.curve, amountOf, proof.context, w);
    ContextCipher(lib.curve, amountOf, proof.context, w);
  }

  /** With sound verifiers the check never runs into a point that does not parse. */
  lemma NeverThrows(lib: Library, amountOf: Amounts, transfer: TransferFacts, proof: ValidityProof, units: nat, equality: seq<byte>)
    requires Sound(lib, amountOf)
    ensures CheckProof(lib, transfer, proof, units, equality) != Some(Thrown)
  {
    if lib.validityHolds(proof) {
      ValidCombines(lib, amountOf, proof);
    }
  }

  lemma LayoutParts(transfer: seq<byte>, proofTx: seq<byte>, units: nat, proof: seq<byte>)
    requires |transfer| == |proofTx| == SIGNATURE_BYTES && |proof| == EQUALITY_PROOF_BYTES && units <= U64_MAX
    ensures var bytes := Layout(transfer, proofTx, units, proof);
      && |bytes| == PAYLOAD_BYTES && bytes[0] == PAYLOAD_VERSION
      && bytes[1..1 + SIGNATURE_BYTES] == transfer && bytes[1 + SIGNATURE_BYTES..AMOUNT_AT] == proofTx
      && ReadLittleEndian(bytes[AMOUNT_AT..PROOF_AT]) == units && bytes[PROOF_AT..] == proof
  {
    var bytes := Layout(transfer, proofTx, units, proof);
    assert bytes[1..65] == transfer && bytes[65..129] == proofTx && bytes[137..] == proof;
    assert bytes[129..137] == LittleEndian(units, 8);
    Pow256Eight();
    ReadBack(units, 8);
  }

  /** What the chain serves for an honest contribution: the proof transaction the supporter kept, with
      a proof that holds, made under the supporter's key, and a Transfer that names its account and
      carries its commitments. */
  ghost predicate Served(lib: Library, ledger: Ledger, keys: Keypair, c: Contribution, t: TransferFacts, v: ValidityFacts)
  {
    && |c.transfer| == |c.proof| == SIGNATURE_BYTES && c.transfer in ledger && c.proof in ledger
    && !ledger[c.transfer].failed && ReadTransfer(lib, ledger[c.transfer].instructions) == Some(t)
    && ledger[c.proof] == Transaction(false, c.wire) && ReadValidity(lib, c.wire) == Some(v)
    && v.account == t.validityAccount && lib.validityHolds(v.proof)
    && |v.proof.context| == VALIDITY_CONTEXT_BYTES
    && v.proof.context[..POINT_BYTES] == lib.curve.encode(keys.pubkey)
    && GroupedOf(v.proof.context).groupedLo[..POINT_BYTES] == t.commitmentLo
    && GroupedOf(v.proof.context).groupedHi[..POINT_BYTES] == t.commitmentHi
    && keys.pubkey < lib.curve.order && KeyOf(lib.curve.order, lib.curve.h, keys.secret, keys.pubkey)
  }

  // The statement and the proof of a payload that was made.
  lemma CreatedProof(lib: Library, keys: Keypair, context: seq<byte>, units: nat, combined: Cipher)
    requires Complete(lib) && |context| == VALIDITY_CONTEXT_BYTES
    requires keys.pubkey < lib.curve.order && KeyOf(lib.curve.order, lib.curve.h, keys.secret, keys.pubkey)
    requires DecryptContribution(lib.curve, keys.secret, GroupedOf(context), Source) == Ok(units)
    requires CombineCiphertext(lib.curve, GroupedOf(context), Source) == Some(combined)
    ensures units <= U64_MAX && Proves(lib, keys, combined, units)
  {
    var grouped := GroupedOf(context);
    var lo := GroupedPoints(lib.curve, grouped.groupedLo, Source).value;
    var hi := GroupedPoints(lib.curve, grouped.groupedHi, Source).value;
    ReportedIsPlain(lib.curve.order, keys.secret, lo, hi);
  }

  lemma CreatedPasses(lib: Library, keys: Keypair, t: TransferFacts, proof: ValidityProof, units: nat, equality: seq<byte>,
                      combined: Cipher)
    requires lib.validityHolds(proof) && |proof.context| == VALIDITY_CONTEXT_BYTES
    requires GroupedOf(proof.context).groupedLo[..POINT_BYTES] == t.commitmentLo
    requires GroupedOf(proof.context).groupedHi[..POINT_BYTES] == t.commitmentHi
    requires proof.context[..POINT_BYTES] == lib.curve.encode(keys.pubkey)
    requires CombineCiphertext(lib.curve, GroupedOf(proof.context), Source) == Some(combined)
    requires lib.equalityHolds(Statement(lib.curve, lib.curve.encode(keys.pubkey), combined, units), equality)
    ensures CheckProof(lib, t, proof, units, equality).None?
  {
  }

  lemma PayloadReads(lib: Library, ledger: Ledger, bytes: seq<byte>)
    requires |bytes| == PAYLOAD_BYTES
    ensures VerifyDisclosure(lib, ledger, Base64.ToBase64Url(bytes)) == CheckBytes(lib, ledger, bytes)
  {
    Base64.FromUrlToUrl(bytes);
    Base64.UrlTextShape(bytes);
  }

  lemma LayoutChecks(lib: Library, ledger: Ledger, keys: Keypair, c: Contribution, t: TransferFacts, v: ValidityFacts,
                     units: nat, equality: seq<byte>)
    requires Served(lib, ledger, keys, c, t, v) && units <= U64_MAX && |equality| == EQUALITY_PROOF_BYTES
    requires CheckProof(lib, t, v.proof, units, equality).None?
    ensures CheckBytes(lib, ledger, Layout(c.transfer, c.proof, units, equality)) == Ok(Disclosed(units, c.transfer))
  {
    LayoutParts(c.transfer, c.proof, units, equality);
  }

  /** Completeness. With complete provers, every payload made for a contribution the chain serves is
      accepted, with the amount it was made for. */
  lemma DisclosureComplete(lib: Library, ledger: Ledger, keys: Keypair, c: Contribution, t: TransferFacts, v: ValidityFacts)
    requires Complete(lib) && Served(lib, ledger, keys, c, t, v) && CreateDisclosure(lib, keys, c).Ok?
    ensures var (payload, units) := CreateDisclosure(lib, keys, c).value;
      VerifyDisclosure(lib, ledger, payload) == Ok(Disclosed(units, c.transfer))
  {
    var (payload, units) := CreateDisclosure(lib, keys, c).value;
    var context := v.proof.context;
    var combined := CombineCiphertext(lib.curve, GroupedOf(context), Source).value;
    CreatedProof(lib, keys, context, units, combined);
    var statement := Statement(lib.curve, lib.curve.encode(keys.pubkey), combined, units);
    var equality := lib.equalityProof(keys.secret, statement, units);
    CreatedPasses(lib, keys, t, v.proof, units, equality, combined);
    LayoutParts(c.transfer, c.proof, units, equality);
    LayoutChecks(lib, ledger, keys, c, t, v, units, equality);
    PayloadReads(lib, ledger, Layout(c.transfer, c.proof, units, equality));
  }

  /** The supporter's key always makes the payload: for every amount below 2^48 sealed under it, and
      for that amount. */
  lemma DisclosureIsMade(lib: Library, keys: Keypair, c: Contribution, v: ValidityFacts, amount: nat, openingLo: int,
                         openingHi: int, recipients: Keys)
    requires Lawful(lib.curve) && amount < 0x1_0000_0000_0000
    requires recipients.source == keys.pubkey && KeyOf(lib.curve.order, lib.curve.h, keys.secret, keys.pubkey)
    requires ReadValidity(lib, c.wire) == Some(v) && |v.proof.context| == VALIDITY_CONTEXT_BYTES
    requires GroupedOf(v.proof.context)
             == Sealed(lib.curve, amount % SCALE, openingLo, amount / SCALE, openingHi, recipients)
    ensures CreateDisclosure(lib, keys, c).Ok? && CreateDisclosure(lib, keys, c).value.1 == amount
  {
    ContributionExact(lib.curve, amount, openingLo, openingHi, recipients, Source, keys.secret);
  }

  // Uint8Array.prototype.set
  method SetAt(buffer: array<byte>, source: seq<byte>, at: nat)
    requires at + |source| <= buffer.Length
    modifies buffer
    ensures buffer[..] == old(buffer[..at]) + source + old(buffer[at + |source|..])
  {
    var i := 0;
    while i < |source|
      invariant 0 <= i <= |source|
      invariant forall k :: 0 <= k < buffer.Length ==>
                  buffer[k] == if at <= k < at + i then source[k - at] else old(buffer[k])
    {
      buffer[at + i] := source[i];
      i := i + 1;
    }
  }

  /** The payload as it is put together in its buffer. */
  method AssemblePayload(transfer: seq<byte>, proofTx: seq<byte>, units: nat, proof: seq<byte>)
    returns (bytes: array<byte>)
    requires |transfer| == |proofTx| == SIGNATURE_BYTES && |proof| == EQUALITY_PROOF_BYTES
    ensures fresh(bytes) && bytes[..] == Layout(transfer, proofTx, units, proof)
  {
    bytes := new byte[PAYLOAD_BYTES](_ => 0);
    bytes[0] := PAYLOAD_VERSION;
    SetAt(bytes, transfer, 1);
    assert bytes[..65] == [PAYLOAD_VERSION] + transfer;
    SetAt(bytes, proofTx, 1 + SIGNATURE_BYTES);
    assert bytes[..AMOUNT_AT] == [PAYLOAD_VERSION] + transfer + proofTx;
    SetAt(bytes, LittleEndian(units, 8), AMOUNT_AT);
    assert bytes[..PROOF_AT] == [PAYLOAD_VERSION] + transfer + proofTx + LittleEndian(units, 8);
    SetAt(bytes, proof, PROOF_AT);
    assert bytes[..] == bytes[..PROOF_AT] + proof;
  }

  /** The proof data the verifier rebuilds: the statement from the chain, the proof from the payload. */
  method AssembleProof(curve: Curve, pubkey: seq<byte>, cipher: Cipher, units: nat, proof: seq<byte>)
    returns (full: array<byte>)
    requires |pubkey| == POINT_BYTES && |proof| == EQUALITY_PROOF_BYTES
    requires Lawful(curve) && IsCipher(curve, cipher)
    ensures fresh(full) && full[..] == Statement(curve, pubkey, cipher, units) + proof
  {
    full := new byte[4 * POINT_BYTES + EQUALITY_PROOF_BYTES](_ => 0);
    var commitment := curve.encode(Commit(curve.order, curve.h, units, 0));
    SetAt(full, pubkey, 0);
    assert full[..32] == pubkey;
    SetAt(full, CipherBytes(curve, cipher), POINT_BYTES);
    assert full[..96] == pubkey + CipherBytes(curve, cipher);
    SetAt(full, commitment, 3 * POINT_BYTES);
    assert full[..128] == pubkey + CipherBytes(curve, cipher) + commitment;
    SetAt(full, proof, 4 * POINT_BYTES);
    assert full[..] == full[..128] + proof;
  }
}
