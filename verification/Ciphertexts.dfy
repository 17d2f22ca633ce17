/** Which ciphertext the worker records for a pledge: it starts from a fixed account of the first
    instruction of the confidential extension, whichever Transfer it was that backed the pledge. */
module Ciphertexts {
  import opened Common
  import opened Introspect
  import opened Program
  import opened Runs
  import opened Tables
  import opened Refinement
  import opened Ledger

  const VALIDITY_CONTEXT_ACCOUNT := 4

  predicate OfExtension(ix: Instruction) {
    ix.programId == TOKEN_2022 && ix.data != [] && ix.data[0] == CONFIDENTIAL_TRANSFER_EXTENSION
  }

  // `find`: the first instruction of the extension, or the length of the list.
  function FirstOfExtension(list: seq<Instruction>): (n: nat)
    ensures n <= |list|
    ensures n < |list| ==> OfExtension(list[n])
    ensures forall j :: 0 <= j < n ==> !OfExtension(list[j])
  {
    if list == [] || OfExtension(list[0]) then 0 else 1 + FirstOfExtension(list[1..])
  }

  // The account an instruction names where a Transfer names the state of its validity proof.
  function ContextOf(ix: Instruction): Option<Address> {
    if |ix.accounts| > VALIDITY_CONTEXT_ACCOUNT then Some(ix.accounts[VALIDITY_CONTEXT_ACCOUNT].pubkey) else None
  }

  function ValidityContext(list: seq<Instruction>): Option<Address> {
    var n := FirstOfExtension(list);
    if n < |list| then ContextOf(list[n]) else None
  }

  // An instruction of the token program whose data begin with the byte of the extension.
  ghost predicate ExtensionLike(ix: Instruction) { ix.programId == TOKEN_2022 && [27] <= ix.data }

  /** Where the worker looks: at the account with index 4 of the first instruction of the extension, and
      nowhere if that has no more than four. */
  lemma WorkerLooksAt(list: seq<Instruction>, a: Address)
    ensures ValidityContext(list) == Some(a)
            <==> exists i :: && 0 <= i < |list| && ExtensionLike(list[i]) && |list[i].accounts| > 4 && list[i].accounts[4].pubkey == a
                             && forall j :: 0 <= j < i ==> !ExtensionLike(list[j])
  {
    assert forall ix :: OfExtension(ix) <==> ExtensionLike(ix);
    var n := FirstOfExtension(list);
    if n < |list| && ContextOf(list[n]) == Some(a) {
      assert ExtensionLike(list[n]);
    }
  }

  /** What the oldest transaction of a proof account that carries a validity proof holds, if there is
      one. */
  type Proofs = Address -> Option<RecipientCiphertext>

  function Held(proofs: Proofs, context: Option<Address>): Option<RecipientCiphertext> {
    if context.None? then None else proofs(context.value)
  }

  function Fetch(proofs: Proofs, list: seq<Instruction>): Option<RecipientCiphertext> {
    Held(proofs, ValidityContext(list))
  }

  lemma BackingIsOfExtension(list: seq<Instruction>, expected: ExpectedTransfer, i: nat)
    requires i < |list| && Backs(list[i], expected)
    ensures FirstOfExtension(list) <= i
  {
  }

  function Telling(context: Option<Address>, c: RecipientCiphertext): Proofs {
    a => if Some(a) == context then Some(c) else None
  }

  /** The worker reads the ciphertext of the Transfer that backs a pledge, whatever the proofs hold,
      exactly when the first instruction of the extension names the same proof account. */
  lemma ReadsOwnIff(list: seq<Instruction>, expected: ExpectedTransfer, i: nat)
    requires i < |list| && Backs(list[i], expected)
    ensures FirstOfExtension(list) < |list|
    ensures (forall proofs :: Fetch(proofs, list) == Held(proofs, ContextOf(list[i])))
            <==> ContextOf(list[FirstOfExtension(list)]) == ContextOf(list[i])
  {
    BackingIsOfExtension(list, expected, i);
    var read, own := ContextOf(list[FirstOfExtension(list)]), ContextOf(list[i]);
    if read != own {
      var some := RecipientCiphertext([], [], "");
      var proofs := Telling(if own.Some? then own else read, some);
      assert Held(proofs, read) != Held(proofs, own);
      assert Fetch(proofs, list) == Held(proofs, read);
    }
  }

  /** So where each instruction of the extension names a proof account of its own, the worker finds that
      of the backing Transfer exactly when the Transfer is the first of them and has more than four
      accounts. */
  lemma FindsOwnIff(list: seq<Instruction>, expected: ExpectedTransfer, i: nat)
    requires i < |list| && Backs(list[i], expected)
    requires forall j :: 0 <= j < i && OfExtension(list[j]) && ContextOf(list[j]).Some? ==> ContextOf(list[j]) != ContextOf(list[i])
    ensures ValidityContext(list).Some? && ValidityContext(list) == ContextOf(list[i])
            <==> FirstOfExtension(list) == i && |list[i].accounts| > 4
  {
    BackingIsOfExtension(list, expected, i);
  }

  // The node answers for a transaction as its instructions lead it to.
  predicate Serves(w: World, proofs: Proofs, tx: Tx) {
    w.rpc.ciphertext(tx.signature) == Fetch(proofs, tx.instructions)
  }

  predicate WellSized(c: RecipientCiphertext) {
    |c.groupedLo| == 128 == |c.groupedHi|
  }

  // The first instruction of the extension leads to a ciphertext, its own or not.
  predicate Readable(proofs: Proofs, list: seq<Instruction>) {
    var n := FirstOfExtension(list);
    && n < |list| && |list[n].accounts| > VALIDITY_CONTEXT_ACCOUNT
    && proofs(list[n].accounts[VALIDITY_CONTEXT_ACCOUNT].pubkey).Some?
    && WellSized(proofs(list[n].accounts[VALIDITY_CONTEXT_ACCOUNT].pubkey).value)
  }

  predicate HasTimes(tx: Tx, event: ProgramEvent)
    requires event.Pledged?
  {
    tx.blockTime.Some? && IsDate(tx.blockTime.value * 1000) && IsDate(event.startedAt * 1000) && IsDate(event.expiresAt * 1000)
  }

  lemma StorableIff(w: World, proofs: Proofs, tx: Tx, event: ProgramEvent)
    requires Serves(w, proofs, tx)
    ensures Storable(w, tx, event) <==> (event.Pledged? ==> Readable(proofs, tx.instructions) && HasTimes(tx, event))
  {
  }

  /** What can stop the index, down to the instructions: on tables that match the chain, a transaction is
      handled exactly when, if it pledges at all, the first instruction of the extension has more than
      four accounts and leads to a ciphertext, and its times are dates. */
  lemma HandledIffReadable(w: World, proofs: Proofs, c: Chain, tx: Tx, live: bool, now: int, ix: Index, n: Notes)
    requires Sound(w) && Logged(w, c, tx) && Inv(c) && Matches(c, ix, n) && Serves(w, proofs, tx)
    ensures Handle(w.reader, w.rpc, now, ix, Delivered(w, c, tx, live)).Ok?
            <==> forall e :: e in EventsOf(w.deployment, c, tx) && e.Pledged? ==>
                   Readable(proofs, tx.instructions) && HasTimes(tx, e)
  {
    HandledIffStorable(w, c, tx, live, now, ix, n);
    hide Handle, Matches, Readable, HasTimes, Inv, Logged, Sound, Storable;
    var events := EventsOf(w.deployment, c, tx);
    forall e | e in events
      ensures Storable(w, tx, e) <==> (e.Pledged? ==> Readable(proofs, tx.instructions) && HasTimes(tx, e))
    {
      StorableIff(w, proofs, tx, e);
    }
  }

  function CiphertextOf(row: ContributionRow): RecipientCiphertext {
    RecipientCiphertext(row.groupedLo, row.groupedHi, row.proofSig)
  }

  // The row the worker writes for a pledge event of the transaction.
  function RowOfPledge(w: World, tx: Tx, event: ProgramEvent, now: int): ContributionRow
    requires event.Pledged? && Storable(w, tx, event)
  {
    EventWrites(w, tx, event, now)[1].contribution
  }

  // The Transfer that backs this pledge event.
  ghost predicate BacksEvent(d: Deployment, list: seq<Instruction>, event: ProgramEvent, i: nat) {
    && event.Pledged? && d.mint.Some? && i < |list|
    && Backs(list[i], Expected(d, d.mint.value, event.supporter, event.creator))
  }

  /** What is recorded: every pledge has its backing Transfer, and the row written for it carries the
      ciphertext the first instruction of the extension leads to, which is that of the Transfer if the
      Transfer comes first. */
  lemma RowCarries(w: World, proofs: Proofs, c: Chain, tx: Tx, event: ProgramEvent, now: int)
    requires Inv(c) && event in EventsOf(w.deployment, c, tx) && event.Pledged?
    requires Serves(w, proofs, tx) && Storable(w, tx, event)
    ensures exists i: nat :: BacksEvent(w.deployment, tx.instructions, event, i)
    ensures var row, list := RowOfPledge(w, tx, event, now), tx.instructions;
            && row.sig == tx.signature && FirstOfExtension(list) < |list|
            && Some(CiphertextOf(row)) == Held(proofs, ContextOf(list[FirstOfExtension(list)]))
            && forall i: nat :: BacksEvent(w.deployment, list, event, i) && FirstOfExtension(list) == i ==>
                 Some(CiphertextOf(row)) == Held(proofs, ContextOf(list[i]))
  {
    CallsBacked(w.deployment, c, tx.clock, tx.instructions, tx.calls);
    assert BackedEvent(w.deployment, tx.instructions, event);
    var d, list := w.deployment, tx.instructions;
    var i :| 0 <= i < |list| && Backs(list[i], Expected(d, d.mint.value, event.supporter, event.creator));
    assert BacksEvent(d, list, event, i);
  }

  function Signed(accounts: seq<AccountMeta>, authority: Address): seq<AccountMeta> {
    accounts + [AccountMeta(authority, true)]
  }

  // A Transfer with its three proofs in accounts of their own.
  function Transfer(e: ExpectedTransfer, equality: Address, validity: Address, range: Address): Instruction {
    Instruction(TOKEN_2022,
                Signed([AccountMeta(e.source, false), AccountMeta(e.mint, false), AccountMeta(e.destination, false),
                        AccountMeta(equality, false), AccountMeta(validity, false), AccountMeta(range, false)], e.authority),
                [CONFIDENTIAL_TRANSFER_EXTENSION, TRANSFER])
  }

  lemma TransferBacks(e: ExpectedTransfer, equality: Address, validity: Address, range: Address)
    ensures Backs(Transfer(e, equality, validity, range), e)
    ensures ContextOf(Transfer(e, equality, validity, range)) == Some(validity)
  {
  }

  /** Three accepted transactions where the two differ. Two Transfers of one supporter, the second of
      which backs the pledge: the worker records the ciphertext of the first, which is for somebody
      else. */
  lemma ForeignCiphertextIsRead(e: ExpectedTransfer, other: Address, equality: Address, validity: Address, range: Address,
                                equality2: Address, validity2: Address, range2: Address)
    requires other != e.destination
    ensures var foreign := Transfer(e.(destination := other), equality, validity, range);
            var backing := Transfer(e, equality2, validity2, range2);
            && ScanVerdict(Instructions([foreign, backing]), e) == None && !Backs(foreign, e)
            && ValidityContext([foreign, backing]) == Some(validity) && ContextOf(backing) == Some(validity2)
  {
    var foreign := Transfer(e.(destination := other), equality, validity, range);
    var backing := Transfer(e, equality2, validity2, range2);
    TransferBacks(e, equality2, validity2, range2);
    TransferBacks(e.(destination := other), equality, validity, range);
    assert Backs([foreign, backing][1], e);
    VerdictAccepts([foreign, backing], e, None);
  }

  /** A Transfer behind another instruction of the extension, here one that applies the pending balance
      of the supporter's account; and a Transfer with its proofs inline. The worker finds nothing. */
  lemma NoCiphertextIsFound(e: ExpectedTransfer, equality: Address, validity: Address, range: Address)
    ensures var applying := Instruction(TOKEN_2022, Signed([AccountMeta(e.source, false)], e.authority),
                                        [CONFIDENTIAL_TRANSFER_EXTENSION, TRANSFER + 1]);
            var backing := Transfer(e, equality, validity, range);
            ScanVerdict(Instructions([applying, backing]), e) == None && ValidityContext([applying, backing]) == None
    ensures var inlined := Instruction(TOKEN_2022, Signed([AccountMeta(e.source, false), AccountMeta(e.mint, false),
                                                           AccountMeta(e.destination, false)], e.authority),
                                       [CONFIDENTIAL_TRANSFER_EXTENSION, TRANSFER]);
            ScanVerdict(Instructions([inlined]), e) == None && ValidityContext([inlined]) == None
  {
    var applying := Instruction(TOKEN_2022, Signed([AccountMeta(e.source, false)], e.authority),
                                [CONFIDENTIAL_TRANSFER_EXTENSION, TRANSFER + 1]);
    var backing := Transfer(e, equality, validity, range);
    TransferBacks(e, equality, validity, range);
    assert Backs([applying, backing][1], e);
    VerdictAccepts([applying, backing], e, None);
    var inlined := Instruction(TOKEN_2022, Signed([AccountMeta(e.source, false), AccountMeta(e.mint, false),
                                                   AccountMeta(e.destination, false)], e.authority),
                               [CONFIDENTIAL_TRANSFER_EXTENSION, TRANSFER]);
    assert Backs([inlined][0], e);
    VerdictAccepts([inlined], e, None);
  }
}
