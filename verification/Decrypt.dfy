/** Reading confidential amounts: the two halves of a transfer and of the pending balance, with the
    combined ciphertext where one logarithm is enough. */
module Decrypt {
  import opened Common
  import opened Group

  /** The curve library: its order, the generator H, and its 32-byte point encoding. */
  datatype Curve = Curve(order: order, h: Point, encode: Point -> seq<byte>, decode: seq<byte> -> Option<Point>)

  // Encodings have 32 bytes and are read back.
  ghost predicate Lawful(curve: Curve) {
    forall p: Point :: p < curve.order ==> |curve.encode(p)| == POINT_BYTES && curve.decode(curve.encode(p)) == Some(p)
  }

  datatype Handle = Source | Destination | Auditor

  function IndexOf(handle: Handle): nat {
    match handle case Source => 0 case Destination => 1 case Auditor => 2
  }

  datatype ValidityContext = ValidityContext(groupedLo: seq<byte>, groupedHi: seq<byte>)

  datatype Failure = WrongKey | Malformed | Unconfigured

  const POINT_BYTES: nat := 32
  const GROUPED_BYTES: nat := 128
  const SCALE: int := 0x1_0000

  function Chunk(grouped: seq<byte>, i: nat): seq<byte>
    requires |grouped| == GROUPED_BYTES && i < 4
  {
    grouped[POINT_BYTES * i..POINT_BYTES * (i + 1)]
  }

  // The commitment and one handle of a grouped ciphertext; `None` is the RangeError or a bad point.
  function GroupedPoints(curve: Curve, grouped: seq<byte>, handle: Handle): Option<Cipher> {
    if |grouped| != GROUPED_BYTES then None
    else match (curve.decode(Chunk(grouped, 0)), curve.decode(Chunk(grouped, 1 + IndexOf(handle))))
      case (Some(c), Some(d)) => Some(Cipher(c, d))
      case _ => None
  }

  predicate GroupedParses(curve: Curve, grouped: seq<byte>) {
    |grouped| == GROUPED_BYTES && forall i :: 0 <= i < 4 ==> curve.decode(Chunk(grouped, i)).Some?
  }

  function Combine(q: order, lo: Cipher, hi: Cipher): Cipher {
    AddCipher(q, lo, ScaleCipher(q, SCALE, hi))
  }

  function CombineCiphertext(curve: Curve, context: ValidityContext, handle: Handle): Option<Cipher> {
    match (GroupedPoints(curve, context.groupedLo, handle), GroupedPoints(curve, context.groupedHi, handle))
    case (Some(lo), Some(hi)) => Some(Combine(curve.order, lo, hi))
    case _ => None
  }

  function JoinParts(lo: Option<nat>, hi: Option<nat>): Result<nat, Failure> {
    if lo.None? || hi.None? then Err(WrongKey) else Ok(lo.value + hi.value * SCALE)
  }

  function DecryptParts(q: order, secret: int, lo: Cipher, hi: Cipher): Result<nat, Failure> {
    match Group.Decrypt(q, secret, Combine(q, lo, hi))
    case Some(units) => Ok(units)
    case None => JoinParts(Group.Decrypt(q, secret, lo), Group.Decrypt(q, secret, hi))
  }

  function DecryptContribution(curve: Curve, secret: int, context: ValidityContext, handle: Handle)
    : Result<nat, Failure>
  {
    if CombineCiphertext(curve, context, handle).None?
       || !GroupedParses(curve, context.groupedLo) || !GroupedParses(curve, context.groupedHi) then Err(Malformed)
    else
      DecryptParts(curve.order, secret, GroupedPoints(curve, context.groupedLo, handle).value,
                   GroupedPoints(curve, context.groupedHi, handle).value)
  }

  lemma ModSmall(q: order, x: nat)
    requires x < q
    ensures Mod(q, x) == x
  {
  }

  // The plaintext of a combined ciphertext is made of the plaintexts of its halves.
  lemma PlainOfCombine(q: order, secret: int, lo: Cipher, hi: Cipher)
    ensures Plain(q, secret, Combine(q, lo, hi)) == Add(q, Plain(q, secret, lo), Scale(q, SCALE, Plain(q, secret, hi)))
  {
    PlainScale(q, secret, SCALE, hi);
    PlainAdd(q, secret, lo, ScaleCipher(q, SCALE, hi));
  }

  // Adding up small plaintexts never wraps.
  lemma SmallSum(q: order, lo: nat, hi: nat)
    requires lo < LOG_BOUND && hi < LOG_BOUND
    ensures Add(q, lo, Scale(q, SCALE, hi)) == lo + hi * SCALE
  {
    ModSmall(q, SCALE * hi);
    ModSmall(q, lo + hi * SCALE);
  }

  /** The two routes agree: for any ciphertexts whatever, if the combined logarithm and both partial
      ones are found, they give the same amount. */
  lemma RoutesAgree(q: order, secret: int, lo: Cipher, hi: Cipher)
    requires Group.Decrypt(q, secret, Combine(q, lo, hi)).Some?
    requires Group.Decrypt(q, secret, lo).Some? && Group.Decrypt(q, secret, hi).Some?
    ensures JoinParts(Group.Decrypt(q, secret, lo), Group.Decrypt(q, secret, hi))
            == Ok(Group.Decrypt(q, secret, Combine(q, lo, hi)).value)
  {
    PlainOfCombine(q, secret, lo, hi);
    SmallSum(q, Plain(q, secret, lo), Plain(q, secret, hi));
  }

  /** Whatever amount is reported, by either route, is the plaintext of the combined ciphertext. */
  lemma ReportedIsPlain(q: order, secret: int, lo: Cipher, hi: Cipher)
    ensures var r := DecryptParts(q, secret, lo, hi);
      r.Ok? ==> r.value <= U64_MAX && Plain(q, secret, Combine(q, lo, hi)) == r.value
  {
    if Group.Decrypt(q, secret, Combine(q, lo, hi)).None?
       && Group.Decrypt(q, secret, lo).Some? && Group.Decrypt(q, secret, hi).Some? {
      PlainOfCombine(q, secret, lo, hi);
      SmallSum(q, Plain(q, secret, lo), Plain(q, secret, hi));
    }
  }

  /** The three recipients of a confidential transfer. */
  datatype Keys = Keys(source: Point, destination: Point, auditor: Point)

  function KeyAt(keys: Keys, handle: Handle): Point {
    match handle case Source => keys.source case Destination => keys.destination case Auditor => keys.auditor
  }

  // One half of a transfer amount, as the grouped ciphertext carries it.
  function Grouped(curve: Curve, x: int, opening: int, keys: Keys): seq<byte> {
    curve.encode(Commit(curve.order, curve.h, x, opening))
    + curve.encode(Scale(curve.order, opening, keys.source))
    + curve.encode(Scale(curve.order, opening, keys.destination))
    + curve.encode(Scale(curve.order, opening, keys.auditor))
  }

  lemma Chunks(a: seq<byte>, b: seq<byte>, c: seq<byte>, d: seq<byte>)
    requires |a| == |b| == |c| == |d| == POINT_BYTES
    ensures |a + b + c + d| == GROUPED_BYTES
    ensures Chunk(a + b + c + d, 0) == a && Chunk(a + b + c + d, 1) == b
    ensures Chunk(a + b + c + d, 2) == c && Chunk(a + b + c + d, 3) == d
  {
  }

  lemma GroupedReads(curve: Curve, x: int, opening: int, keys: Keys, handle: Handle)
    requires Lawful(curve)
    ensures GroupedParses(curve, Grouped(curve, x, opening, keys))
    ensures GroupedPoints(curve, Grouped(curve, x, opening, keys), handle)
            == Some(Encrypt(curve.order, curve.h, x, opening, KeyAt(keys, handle)))
  {
    var q := curve.order;
    var c, s := Commit(q, curve.h, x, opening), Scale(q, opening, keys.source);
    var d, a := Scale(q, opening, keys.destination), Scale(q, opening, keys.auditor);
    Chunks(curve.encode(c), curve.encode(s), curve.encode(d), curve.encode(a));
  }

  // A transfer of `lo + 2^16 hi`, under any openings and keys.
  function Sealed(curve: Curve, lo: int, openingLo: int, hi: int, openingHi: int, keys: Keys): ValidityContext {
    ValidityContext(Grouped(curve, lo, openingLo, keys), Grouped(curve, hi, openingHi, keys))
  }

  lemma HalvesDecrypt(q: order, h: Point, lo: nat, openingLo: int, hi: nat, openingHi: int, pubkey: Point, secret: int)
    requires lo < SCALE && hi < LOG_BOUND && KeyOf(q, h, secret, pubkey)
    ensures var low, high := Encrypt(q, h, lo, openingLo, pubkey), Encrypt(q, h, hi, openingHi, pubkey);
      && DecryptParts(q, secret, low, high) == Ok(lo + hi * SCALE)
      && (Group.Decrypt(q, secret, Combine(q, low, high)).Some? <==> lo + hi * SCALE < LOG_BOUND)
  {
    hide Mod, Encrypt, Plain, Combine, Add, Scale, KeyOf;
    PlainOfEncrypt(q, h, lo, openingLo, pubkey, secret);
    PlainOfEncrypt(q, h, hi, openingHi, pubkey, secret);
    ModSmall(q, lo);
    ModSmall(q, hi);
    PlainOfCombine(q, secret, Encrypt(q, h, lo, openingLo, pubkey), Encrypt(q, h, hi, openingHi, pubkey));
    SmallSum(q, lo, hi);
  }

  /** Exactness: every amount below 2^48, split 16/32, is read back by the key of the chosen handle,
      through the combined ciphertext exactly when the amount is below 2^32. */
  lemma ContributionExact(curve: Curve, amount: nat, openingLo: int, openingHi: int, keys: Keys, handle: Handle,
                          secret: int)
    requires Lawful(curve)
    requires amount < 0x1_0000_0000_0000 && KeyOf(curve.order, curve.h, secret, KeyAt(keys, handle))
    ensures var sealed := Sealed(curve, amount % 65536, openingLo, amount / 65536, openingHi, keys);
      && DecryptContribution(curve, secret, sealed, handle) == Ok(amount)
      && CombineCiphertext(curve, sealed, handle).Some?
      && (Group.Decrypt(curve.order, secret, CombineCiphertext(curve, sealed, handle).value).Some?
          <==> amount < 0x1_0000_0000)
  {
    var lo, hi := amount % SCALE, amount / SCALE;
    GroupedReads(curve, lo, openingLo, keys, handle);
    GroupedReads(curve, hi, openingHi, keys, handle);
    HalvesDecrypt(curve.order, curve.h, lo, openingLo, hi, openingHi, KeyAt(keys, handle), secret);
  }

  /** The bytes of a half: the commitment, then the handles of source, destination and auditor. */
  lemma GroupedLayout(curve: Curve, x: int, opening: int, keys: Keys)
    requires Lawful(curve)
    ensures var grouped := Grouped(curve, x, opening, keys);
      && |grouped| == 128
      && grouped[..32] == curve.encode(Commit(curve.order, curve.h, x, opening))
      && grouped[32..64] == curve.encode(Scale(curve.order, opening, keys.source))
      && grouped[64..96] == curve.encode(Scale(curve.order, opening, keys.destination))
      && grouped[96..] == curve.encode(Scale(curve.order, opening, keys.auditor))
  {
    var q := curve.order;
    Chunks(curve.encode(Commit(q, curve.h, x, opening)), curve.encode(Scale(q, opening, keys.source)),
           curve.encode(Scale(q, opening, keys.destination)), curve.encode(Scale(q, opening, keys.auditor)));
  }

  // Four points in 128 bytes.
  predicate FourPoints(curve: Curve, grouped: seq<byte>) {
    && |grouped| == 128
    && curve.decode(grouped[..32]).Some? && curve.decode(grouped[32..64]).Some?
    && curve.decode(grouped[64..96]).Some? && curve.decode(grouped[96..]).Some?
  }

  // The plaintext of a half under the secret of one of its handles, the one at byte `at`.
  function HalfPlain(curve: Curve, secret: int, grouped: seq<byte>, at: nat): Point
    requires FourPoints(curve, grouped) && at in {32, 64, 96}
  {
    var handle := if at == 32 then grouped[32..64] else if at == 64 then grouped[64..96] else grouped[96..];
    Plain(curve.order, secret, Cipher(curve.decode(grouped[..32]).value, curve.decode(handle).value))
  }

  // What is reported of two plaintexts: their combination if its logarithm is found, or the parts.
  function Reported(q: order, lo: nat, hi: nat): Result<nat, Failure> {
    if Mod(q, lo + 65536 * hi) < 0x1_0000_0000 then Ok(Mod(q, lo + 65536 * hi))
    else if lo < 0x1_0000_0000 && hi < 0x1_0000_0000 then Ok(lo + 65536 * hi)
    else Err(WrongKey)
  }

  lemma PartsReported(q: order, secret: int, lo: Cipher, hi: Cipher)
    ensures DecryptParts(q, secret, lo, hi) == Reported(q, Plain(q, secret, lo), Plain(q, secret, hi))
  {
    PlainOfCombine(q, secret, lo, hi);
    ModAdd(q, Plain(q, secret, lo), SCALE * Plain(q, secret, hi));
  }

  lemma PointsAt(curve: Curve, grouped: seq<byte>, handle: Handle)
    ensures GroupedParses(curve, grouped) <==> FourPoints(curve, grouped)
    ensures FourPoints(curve, grouped) ==>
              GroupedPoints(curve, grouped, handle)
              == Some(Cipher(curve.decode(grouped[..32]).value,
                             match handle
                             case Source => curve.decode(grouped[32..64]).value
                             case Destination => curve.decode(grouped[64..96]).value
                             case Auditor => curve.decode(grouped[96..]).value))
  {
    if |grouped| == 128 {
      assert Chunk(grouped, 0) == grouped[..32] && Chunk(grouped, 1) == grouped[32..64];
      assert Chunk(grouped, 2) == grouped[64..96] && Chunk(grouped, 3) == grouped[96..];
    }
  }

  /** Every outcome of the reader, for any bytes and any secret: malformed exactly when a half is not four
      points, and otherwise what the two plaintexts under the chosen handle come to. */
  lemma ContributionReads(curve: Curve, secret: int, context: ValidityContext, handle: Handle)
    ensures DecryptContribution(curve, secret, context, handle)
            == if !FourPoints(curve, context.groupedLo) || !FourPoints(curve, context.groupedHi) then Err(Malformed)
               else
                 var at := match handle case Source => 32 case Destination => 64 case Auditor => 96;
                 Reported(curve.order, HalfPlain(curve, secret, context.groupedLo, at),
                          HalfPlain(curve, secret, context.groupedHi, at))
  {
    PointsAt(curve, context.groupedLo, handle);
    PointsAt(curve, context.groupedHi, handle);
    hide Chunk, Reported, DecryptParts, GroupedParses;
    if FourPoints(curve, context.groupedLo) && FourPoints(curve, context.groupedHi) {
      PartsReported(curve.order, secret, GroupedPoints(curve, context.groupedLo, handle).value,
                    GroupedPoints(curve, context.groupedHi, handle).value);
    }
  }

  // A credit to the pending balance: the halves of one transfer or deposit.
  datatype Credit = Credit(lo: nat, openingLo: int, hi: nat, openingHi: int)

  const NOTHING: Cipher := Cipher(0, 0)

  // What the token program accumulates in one of the two pending ciphertexts.
  function PendingLow(q: order, h: Point, pubkey: Point, credits: seq<Credit>): Cipher {
    if credits == [] then NOTHING
    else
      var last := credits[|credits| - 1];
      AddCipher(q, PendingLow(q, h, pubkey, credits[..|credits| - 1]), Encrypt(q, h, last.lo, last.openingLo, pubkey))
  }

  function PendingHigh(q: order, h: Point, pubkey: Point, credits: seq<Credit>): Cipher {
    if credits == [] then NOTHING
    else
      var last := credits[|credits| - 1];
      AddCipher(q, PendingHigh(q, h, pubkey, credits[..|credits| - 1]), Encrypt(q, h, last.hi, last.openingHi, pubkey))
  }

  function SumLow(credits: seq<Credit>): nat {
    if credits == [] then 0 else SumLow(credits[..|credits| - 1]) + credits[|credits| - 1].lo
  }

  function SumHigh(credits: seq<Credit>): nat {
    if credits == [] then 0 else SumHigh(credits[..|credits| - 1]) + credits[|credits| - 1].hi
  }

  // The balance extension of a token account, as far as the reader looks: two 64-byte ciphertexts.
  datatype Extension = Extension(pendingLow: seq<byte>, pendingHigh: seq<byte>)

  function CipherBytes(curve: Curve, c: Cipher): seq<byte> { curve.encode(c.commitment) + curve.encode(c.handle) }

  function ParseCipher(curve: Curve, bytes: seq<byte>): Option<Cipher> {
    if |bytes| != 2 * POINT_BYTES then None
    else match (curve.decode(bytes[..POINT_BYTES]), curve.decode(bytes[POINT_BYTES..]))
      case (Some(c), Some(d)) => Some(Cipher(c, d))
      case _ => None
  }

  function DecryptPending(curve: Curve, secret: int, extension: Option<Extension>): Result<nat, Failure> {
    match extension
    case None => Err(Unconfigured)
    case Some(e) =>
      match (ParseCipher(curve, e.pendingLow), ParseCipher(curve, e.pendingHigh))
      case (Some(lo), Some(hi)) =>
        JoinParts(Group.Decrypt(curve.order, secret, lo), Group.Decrypt(curve.order, secret, hi))
      case _ => Err(Malformed)
  }

  // Two points in 64 bytes.
  predicate TwoPoints(curve: Curve, bytes: seq<byte>) {
    |bytes| == 64 && curve.decode(bytes[..32]).Some? && curve.decode(bytes[32..]).Some?
  }

  function PendingPlain(curve: Curve, secret: int, bytes: seq<byte>): Point
    requires TwoPoints(curve, bytes)
  {
    Plain(curve.order, secret, Cipher(curve.decode(bytes[..32]).value, curve.decode(bytes[32..]).value))
  }

  /** Every outcome of reading the pending balance. */
  lemma PendingReads(curve: Curve, secret: int, extension: Option<Extension>)
    ensures DecryptPending(curve, secret, extension)
            == if extension.None? then Err(Unconfigured)
               else if !TwoPoints(curve, extension.value.pendingLow) || !TwoPoints(curve, extension.value.pendingHigh) then Err(Malformed)
               else
                 var lo := PendingPlain(curve, secret, extension.value.pendingLow);
                 var hi := PendingPlain(curve, secret, extension.value.pendingHigh);
                 if lo < 0x1_0000_0000 && hi < 0x1_0000_0000 then Ok(lo + 65536 * hi) else Err(WrongKey)
  {
  }

  lemma ParseBytes(curve: Curve, c: Cipher)
    requires Lawful(curve) && c.commitment < curve.order && c.handle < curve.order
    ensures ParseCipher(curve, CipherBytes(curve, c)) == Some(c)
  {
    assert CipherBytes(curve, c)[..POINT_BYTES] == curve.encode(c.commitment);
    assert CipherBytes(curve, c)[POINT_BYTES..] == curve.encode(c.handle);
  }

  ghost predicate Standard(credits: seq<Credit>) {
    forall i :: 0 <= i < |credits| ==> credits[i].lo < 65536 && credits[i].hi < 0x1_0000_0000
  }

  lemma PlainOfNothing(q: order, secret: int)
    ensures Plain(q, secret, NOTHING) == 0
  {
    assert secret * 0 == 0;
  }

  // One more credit in one of the two ciphertexts.
  lemma PlainOfCredit(q: order, h: Point, pubkey: Point, secret: int, before: Cipher, sum: nat, x: nat, opening: int)
    requires KeyOf(q, h, secret, pubkey) && Plain(q, secret, before) == Mod(q, sum)
    ensures Plain(q, secret, AddCipher(q, before, Encrypt(q, h, x, opening, pubkey))) == Mod(q, sum + x)
  {
    PlainOfEncrypt(q, h, x, opening, pubkey, secret);
    PlainAdd(q, secret, before, Encrypt(q, h, x, opening, pubkey));
    ModSums(q, sum, x);
  }

  lemma {:induction false} PlainOfPending(q: order, h: Point, pubkey: Point, credits: seq<Credit>, secret: int)
    requires KeyOf(q, h, secret, pubkey)
    ensures Plain(q, secret, PendingLow(q, h, pubkey, credits)) == Mod(q, SumLow(credits))
    ensures Plain(q, secret, PendingHigh(q, h, pubkey, credits)) == Mod(q, SumHigh(credits))
    decreases |credits|
  {
    if credits == [] {
      PlainOfNothing(q, secret);
    } else {
      var early, last := credits[..|credits| - 1], credits[|credits| - 1];
      PlainOfPending(q, h, pubkey, early, secret);
      PlainOfCredit(q, h, pubkey, secret, PendingLow(q, h, pubkey, early), SumLow(early), last.lo, last.openingLo);
      PlainOfCredit(q, h, pubkey, secret, PendingHigh(q, h, pubkey, early), SumHigh(early), last.hi, last.openingHi);
    }
  }

  lemma {:induction false} SumsBounded(credits: seq<Credit>)
    requires Standard(credits)
    ensures SumLow(credits) <= |credits| * (SCALE - 1)
    ensures SumHigh(credits) <= |credits| * (LOG_BOUND - 1)
    decreases |credits|
  {
    if credits != [] {
      SumsBounded(credits[..|credits| - 1]);
    }
  }

  lemma ReadsPending(q: order, h: Point, pubkey: Point, credits: seq<Credit>, secret: int)
    requires KeyOf(q, h, secret, pubkey) && Standard(credits) && |credits| <= SCALE
    ensures Group.Decrypt(q, secret, PendingLow(q, h, pubkey, credits)) == Some(SumLow(credits))
    ensures Group.Decrypt(q, secret, PendingHigh(q, h, pubkey, credits))
            == if SumHigh(credits) < LOG_BOUND then Some(SumHigh(credits)) else None
  {
    PlainOfPending(q, h, pubkey, credits, secret);
    SumsBounded(credits);
    ModSmall(q, SumLow(credits));
    ModSmall(q, SumHigh(credits));
  }

  lemma ParsePending(curve: Curve, pubkey: Point, credits: seq<Credit>)
    requires Lawful(curve)
    ensures var low, high := PendingLow(curve.order, curve.h, pubkey, credits), PendingHigh(curve.order, curve.h, pubkey, credits);
            && ParseCipher(curve, CipherBytes(curve, low)) == Some(low)
            && ParseCipher(curve, CipherBytes(curve, high)) == Some(high)
  {
    ParseBytes(curve, PendingLow(curve.order, curve.h, pubkey, credits));
    ParseBytes(curve, PendingHigh(curve.order, curve.h, pubkey, credits));
  }

  /** The pending balance of up to 65,536 credits is read exactly when the high parts add up to less
      than 2^32; otherwise the reader reports a wrong key. It never reports a wrong sum. */
  lemma PendingExact(curve: Curve, pubkey: Point, credits: seq<Credit>, secret: int)
    requires Lawful(curve) && KeyOf(curve.order, curve.h, secret, pubkey) && Standard(credits) && |credits| <= 65536
    ensures var extension := Extension(CipherBytes(curve, PendingLow(curve.order, curve.h, pubkey, credits)),
                                       CipherBytes(curve, PendingHigh(curve.order, curve.h, pubkey, credits)));
      DecryptPending(curve, secret, Some(extension))
      == if SumHigh(credits) < 0x1_0000_0000 then Ok(SumLow(credits) + SumHigh(credits) * 65536) else Err(WrongKey)
  {
    hide CipherBytes, ParseCipher, Lawful, Group.Decrypt, PendingLow, PendingHigh;
    ReadsPending(curve.order, curve.h, pubkey, credits, secret);
    ParsePending(curve, pubkey, credits);
  }
}
