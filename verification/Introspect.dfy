/** The scan of the transaction's instructions that backs every pledge with a confidential transfer. */
module Introspect {
  import opened Common
  import opened Periods

  const TOKEN_2022: Address := "TokenzQdBNbLqP5VEhdkAS6EPFLC1PHnBqCXEpPxuEb"
  const CONFIDENTIAL_TRANSFER_EXTENSION: byte := 27
  const TRANSFER: byte := 7
  const SOURCE := 0
  const MINT := 1
  const DESTINATION := 2
  const MIN_ACCOUNTS := 4

  datatype AccountMeta = AccountMeta(pubkey: Address, isSigner: bool)

  datatype Instruction = Instruction(programId: Address, accounts: seq<AccountMeta>, data: seq<byte>)

  datatype ExpectedTransfer =
    ExpectedTransfer(mint: Address, source: Address, destination: Address, authority: Address)

  // The account passed as the instructions sysvar: the real one, or anything else.
  datatype Sysvar = Instructions(list: seq<Instruction>) | Foreign

  predicate IsConfidentialTransfer(ix: Instruction) {
    && ix.programId == TOKEN_2022
    && |ix.data| >= 2
    && ix.data[0] == CONFIDENTIAL_TRANSFER_EXTENSION
    && ix.data[1] == TRANSFER
    && |ix.accounts| >= MIN_ACCOUNTS
  }

  function Mismatch(accounts: seq<AccountMeta>, expected: ExpectedTransfer): Option<ProgramError>
    requires |accounts| >= MIN_ACCOUNTS
  {
    var authority := accounts[|accounts| - 1];
    if accounts[MINT].pubkey != expected.mint then Some(WrongMint)
    else if accounts[DESTINATION].pubkey != expected.destination then Some(WrongDestination)
    else if accounts[SOURCE].pubkey != expected.source then Some(WrongSource)
    else if !(authority.isSigner && authority.pubkey == expected.authority) then Some(WrongAuthority)
    else None
  }

  // A confidential transfer of the token program: its data begin with the bytes 27 and 7, and it names
  // at least four accounts.
  ghost predicate TransferLike(ix: Instruction) {
    ix.programId == TOKEN_2022 && [27, 7] <= ix.data && |ix.accounts| >= 4
  }

  // What a pledge needs beside it: a confidential transfer in the expected mint between the expected
  // accounts, signed by the expected authority, whatever proof accounts lie in between.
  ghost predicate Backs(ix: Instruction, expected: ExpectedTransfer) {
    && TransferLike(ix)
    && ix.accounts[0].pubkey == expected.source
    && ix.accounts[1].pubkey == expected.mint
    && ix.accounts[2].pubkey == expected.destination
    && ix.accounts[|ix.accounts| - 1] == AccountMeta(expected.authority, true)
  }

  // The first thing wrong with a transfer: its mint, its destination, its source, or its last account.
  ghost predicate Faulty(ix: Instruction, expected: ExpectedTransfer, error: ProgramError)
    requires TransferLike(ix)
  {
    if ix.accounts[1].pubkey != expected.mint then error == WrongMint
    else if ix.accounts[2].pubkey != expected.destination then error == WrongDestination
    else if ix.accounts[0].pubkey != expected.source then error == WrongSource
    else ix.accounts[|ix.accounts| - 1] != AccountMeta(expected.authority, true) && error == WrongAuthority
  }

  ghost predicate Backed(list: seq<Instruction>, expected: ExpectedTransfer) {
    exists i :: 0 <= i < |list| && Backs(list[i], expected)
  }

  ghost predicate FirstTransfer(list: seq<Instruction>, i: nat) {
    && i < |list|
    && TransferLike(list[i])
    && forall j :: 0 <= j < i ==> !TransferLike(list[j])
  }

  lemma IsTransferLike(ix: Instruction)
    ensures IsConfidentialTransfer(ix) <==> TransferLike(ix)
  {
  }

  // The verdict on a scanned list: acceptance, or the error that is reported.
  function Verdict(list: seq<Instruction>, expected: ExpectedTransfer, seen: Option<ProgramError>)
    : (r: Option<ProgramError>)
  {
    if list == [] then Some(if seen.Some? then seen.value else TransferNotFound)
    else if !IsConfidentialTransfer(list[0]) then Verdict(list[1..], expected, seen)
    else match Mismatch(list[0].accounts, expected)
      case None => None
      case Some(e) => Verdict(list[1..], expected, if seen.Some? then seen else Some(e))
  }

  function ScanVerdict(sysvar: Sysvar, expected: ExpectedTransfer): Option<ProgramError> {
    match sysvar
    case Foreign => Some(ForeignSysvar)
    case Instructions(list) => Verdict(list, expected, None)
  }

  // `None` is `Ok(())`.
  method FindConfidentialTransfer(sysvar: Sysvar, expected: ExpectedTransfer)
    returns (refusal: Option<ProgramError>)
    ensures refusal == ScanVerdict(sysvar, expected)
  {
    if sysvar.Foreign? {
      return Some(ForeignSysvar);
    }
    var list := sysvar.list;
    var firstMismatch: Option<ProgramError> := None;
    var index := 0;
    while index < |list|
      invariant 0 <= index <= |list|
      invariant Verdict(list, expected, None) == Verdict(list[index..], expected, firstMismatch)
    {
      var ix := list[index];
      assert list[index..][1..] == list[index + 1..];
      if IsConfidentialTransfer(ix) {
        var mismatch := Mismatch(ix.accounts, expected);
        if mismatch.None? {
          return None;
        }
        if firstMismatch.None? {
          firstMismatch := mismatch;
        }
      }
      index := index + 1;
    }
    return Some(if firstMismatch.Some? then firstMismatch.value else TransferNotFound);
  }

  /** A remembered mismatch changes only which error is reported, never the acceptance. */
  lemma {:induction false} VerdictAccepts(list: seq<Instruction>, expected: ExpectedTransfer, seen: Option<ProgramError>)
    ensures Verdict(list, expected, seen).None? <==> Backed(list, expected)
    ensures seen.Some? && !Backed(list, expected) ==> Verdict(list, expected, seen) == seen
  {
    if list != [] {
      var rest := list[1..];
      var next := if !IsConfidentialTransfer(list[0]) || seen.Some? then seen
                  else Mismatch(list[0].accounts, expected);
      VerdictAccepts(rest, expected, next);
      if Backed(rest, expected) {
        var i :| 0 <= i < |rest| && Backs(rest[i], expected);
        assert Backs(list[i + 1], expected);
      }
      if Backed(list, expected) && !Backs(list[0], expected) {
        var i :| 0 <= i < |list| && Backs(list[i], expected);
        assert Backs(rest[i - 1], expected);
      }
    }
  }

  /** The refusal of an unbacked list: about the first confidential transfer if there is one,
      not-found exactly when there is none. */
  lemma {:induction false} VerdictReports(list: seq<Instruction>, expected: ExpectedTransfer)
    requires !Backed(list, expected)
    ensures (forall i: nat :: i < |list| ==> !TransferLike(list[i]))
            ==> Verdict(list, expected, None) == Some(TransferNotFound)
    ensures forall i: nat :: FirstTransfer(list, i) ==>
              Verdict(list, expected, None).Some? && Faulty(list[i], expected, Verdict(list, expected, None).value)
  {
    if list != [] {
      var rest := list[1..];
      IsTransferLike(list[0]);
      forall i | 0 <= i < |rest| ensures !Backs(rest[i], expected) {
        assert rest[i] == list[i + 1];
      }
      if IsConfidentialTransfer(list[0]) {
        VerdictAccepts(rest, expected, Mismatch(list[0].accounts, expected));
        assert !Backs(list[0], expected);
        forall i: nat | FirstTransfer(list, i) ensures i == 0 {
        }
      } else {
        hide TransferLike;
        VerdictReports(rest, expected);
        forall i: nat | FirstTransfer(list, i) ensures FirstTransfer(rest, i - 1) {
          forall j | 0 <= j < i - 1 ensures !TransferLike(rest[j]) {
            assert rest[j] == list[j + 1];
          }
        }
        if forall i: nat :: i < |list| ==> !TransferLike(list[i]) {
          forall i: nat | i < |rest| ensures !TransferLike(rest[i]) {
            assert rest[i] == list[i + 1];
          }
        }
      }
    }
  }
}
