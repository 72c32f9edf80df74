/**
 * The fields of a transaction's extra data as a hex text, and the decoder that eats them from
 * the front of the text.  Letters are digits ten to fifteen, whatever their case.
 */
module TxExtra {
  import opened Wrappers

  type Digit = d: nat | d < 16
  type Text = seq<Digit>

  datatype Error = KeyError | ValueError

  // ----- Slices and numbers

  /** The first n elements, or all but the last -n, as far as they go. */
  function SliceTo(s: Text, n: int): (r: Text)
    ensures 0 <= n <= |s| ==> r == s[..n]
  {
    var end := if n < 0 then |s| + n else n;
    if end < 0 then [] else if end > |s| then s else s[..end]
  }

  /** Everything after the first n elements, or only the last -n. */
  function SliceFrom(s: Text, n: int): (r: Text)
    ensures |r| <= |s|
    ensures n > 0 && s != [] ==> |r| < |s|
    ensures 0 <= n <= |s| ==> r == s[n..]
  {
    var start := if n < 0 then |s| + n else n;
    if start < 0 then s else if start > |s| then [] else s[start..]
  }

  /** A text of digits zero to nine read in base ten. */
  function Decimal(s: Text): Result<nat, Error>
    requires |s| <= 2
  {
    if s == [] || exists i :: 0 <= i < |s| && s[i] > 9 then Err(ValueError)
    else if |s| == 1 then Ok(s[0])
    else var (high: nat, low: nat) := (s[0], s[1]); Ok(10 * high + low)
  }

  function ByteOf(high: nat, low: nat): nat {
    16 * high + low
  }

  function Hex(s: Text): Result<nat, Error>
    requires |s| <= 2
  {
    if s == [] then Err(ValueError)
    else if |s| == 1 then Ok(s[0])
    else Ok(ByteOf(s[0], s[1]))
  }

  /** Pairs of digits, the least significant pair first. */
  function LittleEndian(s: Text): nat
    requires |s| % 2 == 0
  {
    if s == [] then 0 else ByteOf(s[0], s[1]) + 256 * LittleEndian(s[2..])
  }

  function HexByte(n: nat): (r: Text)
    requires n < 256
    ensures |r| == 2
  {
    [n / 16, n % 16]
  }

  // ----- Fields

  datatype NonceKind = PaymentId | EncryptedPaymentId

  datatype OnsType = Session | Wallet | Lokinet | Lokinet2Years | Lokinet5Years | Lokinet10Years

  datatype Owner = Owner(kind: Text, spendKey: Text, viewKey: Text, isSubaddress: Text)

  datatype Ons = Ons(
    version: Text,
    kind: OnsType,
    nameHash: Text,
    prevTxid: Text,
    fields: nat,
    owner: Option<Owner>,
    backupOwner: Option<Owner>,
    signature: Option<Text>,
    encryptedValue: Option<Text>)

  datatype Field =
    | Pubkey(key: Text)
    | Nonce(kind: NonceKind, data: Text)
    | Burn(amount: nat)
    | NameSystem(ons: Ons)

  const TAG_PUBKEY: nat := 0x01
  const TAG_NONCE: nat := 0x02
  const TAG_BURN: nat := 0x79
  const TAG_NAME_SYSTEM: nat := 0x7A

  const OWNER: nat := 1
  const BACKUP_OWNER: nat := 2
  const SIGNATURE: nat := 4
  const ENCRYPTED_VALUE: nat := 8

  /** The flag, a power of two, is set in `fields`. */
  predicate Has(fields: nat, flag: nat)
    requires flag > 0
  {
    fields / flag % 2 == 1
  }

  // ----- Eating, each from the front of the text

  type Eaten<T> = Result<(T, Text), Error>

  function EatPubkey(s: Text): (Text, Text) {
    (SliceTo(s, 64), SliceFrom(s, 64))
  }

  function NonceKindOf(tag: Text): Result<NonceKind, Error> {
    if tag == [0, 0] then Ok(PaymentId)
    else if tag == [0, 1] then Ok(EncryptedPaymentId)
    else Err(KeyError)
  }

  /** The size byte counts the tag and the data, and is read in base ten. */
  function EatNonce(s: Text): (r: Eaten<Field>)
    ensures r.Ok? ==> |r.value.1| <= |s|
  {
    var count :- Decimal(SliceTo(s, 2));
    var size := (count - 1) * 2;
    var s1 := SliceFrom(s, 2);
    var s2 := SliceFrom(s1, 2);
    var kind :- NonceKindOf(SliceTo(s1, 2));
    Ok((Nonce(kind, SliceTo(s2, size)), SliceFrom(s2, size)))
  }

  function EatOwner(s: Text): (r: (Owner, Text))
    ensures |r.1| <= |s|
  {
    var s1 := SliceFrom(s, 2);
    var s2 := SliceFrom(s1, 64);
    var s3 := SliceFrom(s2, 64);
    (Owner(SliceTo(s, 2), SliceTo(s1, 64), SliceTo(s2, 64), SliceTo(s3, 2)), SliceFrom(s3, 2))
  }

  function EatOwnerIf(flagged: bool, s: Text): (r: (Option<Owner>, Text))
    ensures |r.1| <= |s|
  {
    if flagged then var (o, rest) := EatOwner(s); (Some(o), rest) else (None, s)
  }

  function EatTextIf(flagged: bool, s: Text, n: nat): (r: (Option<Text>, Text))
    ensures |r.1| <= |s|
  {
    if flagged then (Some(SliceTo(s, n)), SliceFrom(s, n)) else (None, s)
  }

  function EatSizedIf(flagged: bool, s: Text): (r: Eaten<Option<Text>>)
    ensures r.Ok? ==> |r.value.1| <= |s|
  {
    if !flagged then Ok((None, s))
    else
      var count :- Hex(SliceTo(s, 2));
      var s1 := SliceFrom(s, 2);
      Ok((Some(SliceTo(s1, count * 2)), SliceFrom(s1, count * 2)))
  }

  function OnsTypeOf(tag: Text): Result<OnsType, Error> {
    if tag == [0, 0] then Ok(Session)
    else if tag == [0, 1] then Ok(Wallet)
    else if tag == [0, 2] then Ok(Lokinet)
    else if tag == [0, 3] then Ok(Lokinet2Years)
    else if tag == [0, 4] then Ok(Lokinet5Years)
    else if tag == [0, 5] then Ok(Lokinet10Years)
    else Err(KeyError)
  }

  /** What follows the flags. */
  function EatOnsParts(s: Text, ons: Ons): (r: Eaten<Field>)
    ensures r.Ok? ==> |r.value.1| <= |s|
    ensures r.Ok? ==> r.value.0.NameSystem? && r.value.0.ons.fields == ons.fields
  {
    var (owner, s1) := EatOwnerIf(Has(ons.fields, OWNER), s);
    var (backup, s2) := EatOwnerIf(Has(ons.fields, BACKUP_OWNER), s1);
    var (signature, s3) := EatTextIf(Has(ons.fields, SIGNATURE), s2, 64);
    var (value, s4) :- EatSizedIf(Has(ons.fields, ENCRYPTED_VALUE), s3);
    Ok((NameSystem(ons.(owner := owner, backupOwner := backup, signature := signature, encryptedValue := value)), s4))
  }

  /** The flag byte is read in base ten. */
  function EatOnsFlags(s: Text, version: Text, tag: Text, nameHash: Text, prevTxid: Text): (r: Eaten<Field>)
    ensures r.Ok? ==> |r.value.1| <= |s|
  {
    var fields :- Decimal(SliceTo(s, 2));
    var kind :- OnsTypeOf(tag);
    EatOnsParts(SliceFrom(s, 2), Ons(version, kind, nameHash, prevTxid, fields, None, None, None, None))
  }

  function EatOns(s: Text): (r: Eaten<Field>)
    ensures r.Ok? ==> |r.value.1| <= |s|
  {
    var s1 := SliceFrom(s, 2);
    var s2 := SliceFrom(s1, 2);
    var s3 := SliceFrom(s2, 64);
    EatOnsFlags(SliceFrom(s3, 64), SliceTo(s, 2), SliceTo(s1, 2), SliceTo(s2, 64), SliceTo(s3, 64))
  }

  function EatBurn(s: Text): (r: Eaten<Field>)
    ensures r.Ok? ==> |r.value.1| <= |s|
  {
    var amount := SliceTo(s, 16);
    if |amount| % 2 != 0 then Err(ValueError)
    else Ok((Burn(LittleEndian(amount)), SliceFrom(s, 16)))
  }

  /** One field with its tag; the other known tags have no function to eat them. */
  function EatField(s: Text): (r: Eaten<Field>)
    requires s != []
    ensures r.Ok? ==> |r.value.1| < |s|
  {
    var rest := SliceFrom(s, 2);
    var tag := SliceTo(s, 2);
    if |tag| < 2 then Err(KeyError)
    else
      var t := ByteOf(tag[0], tag[1]);
      if t == TAG_PUBKEY then var (key, s1) := EatPubkey(rest); Ok((Pubkey(key), s1))
      else if t == TAG_NONCE then EatNonce(rest)
      else if t == TAG_NAME_SYSTEM then EatOns(rest)
      else if t == TAG_BURN then EatBurn(rest)
      else Err(KeyError)
  }

  function Parse(s: Text): Result<seq<Field>, Error>
    decreases |s|
  {
    if s == [] then Ok([])
    else
      var (field, rest) :- EatField(s);
      var others :- Parse(rest);
      Ok([field] + others)
  }

  // ----- Printing

  function NonceTag(kind: NonceKind): Text {
    match kind case PaymentId => [0, 0] case EncryptedPaymentId => [0, 1]
  }

  function OnsTag(kind: OnsType): Text {
    match kind
    case Session => [0, 0]
    case Wallet => [0, 1]
    case Lokinet => [0, 2]
    case Lokinet2Years => [0, 3]
    case Lokinet5Years => [0, 4]
    case Lokinet10Years => [0, 5]
  }

  predicate OwnerPrintable(o: Owner) {
    |o.kind| == 2 && |o.spendKey| == 64 && |o.viewKey| == 64 && |o.isSubaddress| == 2
  }

  predicate OnsPrintable(o: Ons) {
    && |o.version| == 2 && |o.nameHash| == 64 && |o.prevTxid| == 64 && o.fields < 256
    && (o.owner.Some? <==> Has(o.fields, OWNER))
    && (o.owner.Some? ==> OwnerPrintable(o.owner.value))
    && (o.backupOwner.Some? <==> Has(o.fields, BACKUP_OWNER))
    && (o.backupOwner.Some? ==> OwnerPrintable(o.backupOwner.value))
    && (o.signature.Some? <==> Has(o.fields, SIGNATURE))
    && (o.signature.Some? ==> |o.signature.value| == 64)
    && (o.encryptedValue.Some? <==> Has(o.fields, ENCRYPTED_VALUE))
    && (o.encryptedValue.Some? ==> |o.encryptedValue.value| % 2 == 0 && |o.encryptedValue.value| < 512)
  }

  /** What the format has room for. */
  predicate Printable(f: Field) {
    match f
    case Pubkey(key) => |key| == 64
    case Nonce(_, data) => |data| % 2 == 0 && |data| / 2 + 1 < 256
    case Burn(amount) => amount < 0x1_0000_0000_0000_0000
    case NameSystem(ons) => OnsPrintable(ons)
  }

  /** What the base-ten reading of size and flag bytes gets right. */
  predicate Readable(f: Field) {
    match f
    case Nonce(_, data) => |data| / 2 + 1 <= 9
    case NameSystem(ons) => ons.fields <= 9
    case _ => true
  }

  function PrintOwnerOpt(o: Option<Owner>): Text {
    match o
    case None => []
    case Some(w) => w.kind + w.spendKey + w.viewKey + w.isSubaddress
  }

  function PrintTextOpt(o: Option<Text>): Text {
    match o case None => [] case Some(t) => t
  }

  function PrintSizedOpt(o: Option<Text>): Text
    requires o.Some? ==> |o.value| < 512
  {
    match o case None => [] case Some(t) => HexByte(|t| / 2) + t
  }

  function PrintOns(o: Ons): Text
    requires OnsPrintable(o)
  {
    o.version + (OnsTag(o.kind) + (o.nameHash + (o.prevTxid + (HexByte(o.fields) + PrintOnsParts(o)))))
  }

  function PrintOnsParts(o: Ons): Text
    requires OnsPrintable(o)
  {
    PrintOwnerOpt(o.owner)
    + (PrintOwnerOpt(o.backupOwner) + (PrintTextOpt(o.signature) + PrintSizedOpt(o.encryptedValue)))
  }

  function PrintLittleEndian(n: nat, bytes: nat): (r: Text)
    ensures |r| == 2 * bytes
  {
    if bytes == 0 then [] else HexByte(n % 256) + PrintLittleEndian(n / 256, bytes - 1)
  }

  function TagOf(f: Field): nat {
    match f
    case Pubkey(_) => TAG_PUBKEY
    case Nonce(_, _) => TAG_NONCE
    case Burn(_) => TAG_BURN
    case NameSystem(_) => TAG_NAME_SYSTEM
  }

  function PrintBody(f: Field): Text
    requires Printable(f)
  {
    match f
    case Pubkey(key) => key
    case Nonce(kind, data) => HexByte(|data| / 2 + 1) + (NonceTag(kind) + data)
    case Burn(amount) => PrintLittleEndian(amount, 8)
    case NameSystem(ons) => PrintOns(ons)
  }

  predicate AllPrintable(fs: seq<Field>) {
    forall i :: 0 <= i < |fs| ==> Printable(fs[i])
  }

  function Print(fs: seq<Field>): Text
    requires AllPrintable(fs)
  {
    if fs == [] then [] else HexByte(TagOf(fs[0])) + (PrintBody(fs[0]) + Print(fs[1..]))
  }

  // ----- Bytes

  /** Reading a printed byte in base ten gives the byte exactly up to nine. */
  lemma DecimalOfByte(n: nat)
    requires n < 256
    ensures Decimal(HexByte(n)) == Ok(n) <==> n <= 9
  {
  }

  /** Above nine the reading fails or comes out too small. */
  lemma DecimalTooSmall(n: nat)
    requires 9 < n < 256
    ensures var c := Decimal(HexByte(n)); c.Ok? ==> 1 <= c.value < n
  {
    assert n == 16 * (n / 16) + n % 16;
  }

  lemma Cut(a: Text, b: Text)
    ensures SliceTo(a + b, |a|) == a && SliceFrom(a + b, |a|) == b
  {
  }

  function PowerOf256(k: nat): nat {
    if k == 0 then 1 else 256 * PowerOf256(k - 1)
  }

  lemma {:induction false} LittleEndianRoundTrip(n: nat, bytes: nat)
    requires n < PowerOf256(bytes)
    ensures LittleEndian(PrintLittleEndian(n, bytes)) == n
    decreases bytes
  {
    if bytes > 0 {
      LittleEndianRoundTrip(n / 256, bytes - 1);
      assert PrintLittleEndian(n, bytes)[2..] == PrintLittleEndian(n / 256, bytes - 1);
      var b := n % 256;
      assert 16 * (b / 16) + b % 16 == b;
    }
  }

  lemma EightBytes()
    ensures PowerOf256(8) == 0x1_0000_0000_0000_0000
  {
    assert PowerOf256(4) == 0x1_0000_0000;
  }

  // ----- Each kind of field

  lemma BurnEaten(amount: nat, rest: Text)
    requires amount < 0x1_0000_0000_0000_0000
    ensures EatBurn(PrintLittleEndian(amount, 8) + rest) == Ok((Burn(amount), rest))
  {
    EightBytes();
    LittleEndianRoundTrip(amount, 8);
    Cut(PrintLittleEndian(amount, 8), rest);
  }

  lemma NonceParts(kind: NonceKind, data: Text, rest: Text, s: Text)
    requires Printable(Nonce(kind, data)) && s == PrintBody(Nonce(kind, data)) + rest
    ensures SliceTo(s, 2) == HexByte(|data| / 2 + 1)
    ensures SliceTo(SliceFrom(s, 2), 2) == NonceTag(kind) && SliceFrom(SliceFrom(s, 2), 2) == data + rest
  {
    var size, tag := HexByte(|data| / 2 + 1), NonceTag(kind);
    assert s == size + (tag + (data + rest));
    Cut(size, tag + (data + rest));
    Cut(tag, data + rest);
  }

  lemma NonceTagRead(kind: NonceKind)
    ensures NonceKindOf(NonceTag(kind)) == Ok(kind)
  {
  }

  /** What becomes of a printed nonce whose size byte is read as c. */
  lemma NonceHead(kind: NonceKind, data: Text, rest: Text, c: nat, size: int)
    requires Printable(Nonce(kind, data))
    requires Decimal(HexByte(|data| / 2 + 1)) == Ok(c) && size == (c - 1) * 2
    ensures EatNonce(PrintBody(Nonce(kind, data)) + rest) ==
      Ok((Nonce(kind, SliceTo(data + rest, size)), SliceFrom(data + rest, size)))
  {
    NonceParts(kind, data, rest, PrintBody(Nonce(kind, data)) + rest);
    NonceTagRead(kind);
  }

  lemma ReadableNonce(kind: NonceKind, data: Text, rest: Text)
    requires Printable(Nonce(kind, data)) && |data| / 2 + 1 <= 9
    ensures EatNonce(PrintBody(Nonce(kind, data)) + rest) == Ok((Nonce(kind, data), rest))
  {
    DecimalOfByte(|data| / 2 + 1);
    NonceHead(kind, data, rest, |data| / 2 + 1, |data|);
    Cut(data, rest);
  }

  lemma UnreadableNonce(kind: NonceKind, data: Text, rest: Text)
    requires Printable(Nonce(kind, data)) && |data| / 2 + 1 > 9
    ensures var r := EatNonce(PrintBody(Nonce(kind, data)) + rest);
      r.Ok? ==> r.value.0 != Nonce(kind, data)
  {
    var c := Decimal(HexByte(|data| / 2 + 1));
    if c.Ok? {
      DecimalTooSmall(|data| / 2 + 1);
      var size := (c.value - 1) * 2;
      NonceHead(kind, data, rest, c.value, size);
      ShortSlice(data, rest, size);
    } else {
      NonceParts(kind, data, rest, PrintBody(Nonce(kind, data)) + rest);
    }
  }

  lemma NonceEaten(kind: NonceKind, data: Text, rest: Text)
    requires Printable(Nonce(kind, data))
    ensures var r := EatNonce(PrintBody(Nonce(kind, data)) + rest);
      if Readable(Nonce(kind, data)) then r == Ok((Nonce(kind, data), rest))
      else r.Ok? ==> r.value.0 != Nonce(kind, data)
  {
    if |data| / 2 + 1 <= 9 {
      ReadableNonce(kind, data, rest);
    } else {
      UnreadableNonce(kind, data, rest);
    }
  }

  /** A nonce of fifteen bytes has the size byte 0x10, which is read as ten: nine bytes come
      out, and the other six are left in the text. */
  lemma NonceCutShort(kind: NonceKind, data: Text, rest: Text)
    requires |data| == 30
    ensures EatNonce(PrintBody(Nonce(kind, data)) + rest) == Ok((Nonce(kind, data[..18]), data[18..] + rest))
  {
    SixteenReadAsTen();
    NonceHead(kind, data, rest, 10, 18);
    CutInside(data, rest, 18);
  }

  lemma SixteenReadAsTen()
    ensures Decimal(HexByte(16)) == Ok(10)
  {
    assert HexByte(16) == [1, 0];
  }

  lemma CutInside(data: Text, rest: Text, n: nat)
    requires n <= |data|
    ensures SliceTo(data + rest, n) == data[..n] && SliceFrom(data + rest, n) == data[n..] + rest
  {
    assert data + rest == data[..n] + (data[n..] + rest);
    Cut(data[..n], data[n..] + rest);
  }

  lemma ShortSlice(data: Text, rest: Text, size: nat)
    requires size < |data|
    ensures SliceTo(data + rest, size) != data
  {
    assert |SliceTo(data + rest, size)| == size;
  }

  lemma OwnerEaten(o: Option<Owner>, rest: Text)
    requires o.Some? ==> OwnerPrintable(o.value)
    ensures EatOwnerIf(o.Some?, PrintOwnerOpt(o) + rest) == (o, rest)
  {
    match o
    case None =>
      assert PrintOwnerOpt(o) + rest == rest;
    case Some(w) =>
      assert PrintOwnerOpt(o) + rest == w.kind + (w.spendKey + (w.viewKey + (w.isSubaddress + rest)));
      Cut(w.kind, w.spendKey + (w.viewKey + (w.isSubaddress + rest)));
      Cut(w.spendKey, w.viewKey + (w.isSubaddress + rest));
      Cut(w.viewKey, w.isSubaddress + rest);
      Cut(w.isSubaddress, rest);
  }

  lemma TextEaten(o: Option<Text>, rest: Text)
    requires o.Some? ==> |o.value| == 64
    ensures EatTextIf(o.Some?, PrintTextOpt(o) + rest, 64) == (o, rest)
  {
    match o
    case None => assert PrintTextOpt(o) + rest == rest;
    case Some(t) => Cut(t, rest);
  }

  lemma SizedEaten(o: Option<Text>, rest: Text)
    requires o.Some? ==> |o.value| % 2 == 0 && |o.value| < 512
    ensures EatSizedIf(o.Some?, PrintSizedOpt(o) + rest) == Ok((o, rest))
  {
    match o
    case None =>
      assert PrintSizedOpt(o) + rest == rest;
    case Some(t) =>
      assert PrintSizedOpt(o) + rest == HexByte(|t| / 2) + (t + rest);
      Cut(HexByte(|t| / 2), t + rest);
      Cut(t, rest);
  }

  lemma OnsPartsEaten(o: Ons, head: Ons, rest: Text)
    requires OnsPrintable(o)
    requires head == o.(owner := None, backupOwner := None, signature := None, encryptedValue := None)
    ensures EatOnsParts(PrintOnsParts(o) + rest, head) == Ok((NameSystem(o), rest))
  {
    var s4 := PrintSizedOpt(o.encryptedValue) + rest;
    var s3 := PrintTextOpt(o.signature) + s4;
    var s2 := PrintOwnerOpt(o.backupOwner) + s3;
    assert PrintOnsParts(o) + rest == PrintOwnerOpt(o.owner) + s2;
    OwnerEaten(o.owner, s2);
    OwnerEaten(o.backupOwner, s3);
    TextEaten(o.signature, s4);
    SizedEaten(o.encryptedValue, rest);
  }

  lemma OnsHeadEaten(o: Ons, rest: Text)
    requires OnsPrintable(o)
    ensures EatOns(PrintOns(o) + rest)
      == EatOnsFlags(HexByte(o.fields) + (PrintOnsParts(o) + rest), o.version, OnsTag(o.kind), o.nameHash, o.prevTxid)
  {
    PrintOnsThen(o, rest);
    OnsTextsEaten(o.version, OnsTag(o.kind), o.nameHash, o.prevTxid, HexByte(o.fields) + (PrintOnsParts(o) + rest));
  }

  lemma OnsFlagsEaten(o: Ons, s: Text)
    requires OnsPrintable(o)
    ensures EatOnsFlags(HexByte(o.fields) + s, o.version, OnsTag(o.kind), o.nameHash, o.prevTxid) ==
      match Decimal(HexByte(o.fields))
      case Err(e) => Err(e)
      case Ok(fields) => EatOnsParts(s, Ons(o.version, o.kind, o.nameHash, o.prevTxid, fields, None, None, None, None))
  {
    Cut(HexByte(o.fields), s);
    assert OnsTypeOf(OnsTag(o.kind)) == Ok(o.kind);
  }

  lemma OnsTextsEaten(version: Text, tag: Text, nameHash: Text, prevTxid: Text, s: Text)
    requires |version| == 2 && |tag| == 2 && |nameHash| == 64 && |prevTxid| == 64
    ensures EatOns(version + (tag + (nameHash + (prevTxid + s)))) == EatOnsFlags(s, version, tag, nameHash, prevTxid)
  {
    Cut(version, tag + (nameHash + (prevTxid + s)));
    Cut(tag, nameHash + (prevTxid + s));
    Cut(nameHash, prevTxid + s);
    Cut(prevTxid, s);
  }

  lemma Regroup(a: Text, b: Text, c: Text)
    ensures a + b + c == a + (b + c)
  {
  }

  lemma PrintOnsThen(o: Ons, rest: Text)
    requires OnsPrintable(o)
    ensures PrintOns(o) + rest ==
      o.version + (OnsTag(o.kind) + (o.nameHash + (o.prevTxid + (HexByte(o.fields) + (PrintOnsParts(o) + rest)))))
  {
    var p5 := PrintOnsParts(o);
    var p4 := HexByte(o.fields) + p5;
    var p3 := o.prevTxid + p4;
    var p2 := o.nameHash + p3;
    var p1 := OnsTag(o.kind) + p2;
    Regroup(o.version, p1, rest);
    Regroup(OnsTag(o.kind), p2, rest);
    Regroup(o.nameHash, p3, rest);
    Regroup(o.prevTxid, p4, rest);
    Regroup(HexByte(o.fields), p5, rest);
  }

  lemma OnsEaten(o: Ons, rest: Text)
    requires OnsPrintable(o)
    ensures var r := EatOns(PrintOns(o) + rest);
      if o.fields <= 9 then r == Ok((NameSystem(o), rest))
      else r.Ok? ==> r.value.0 != NameSystem(o)
  {
    OnsHeadEaten(o, rest);
    OnsFlagsEaten(o, PrintOnsParts(o) + rest);
    DecimalOfByte(o.fields);
    if o.fields <= 9 {
      OnsPartsEaten(o, o.(owner := None, backupOwner := None, signature := None, encryptedValue := None), rest);
    }
  }

  /** What follows the tag is handed to the function for that tag. */
  lemma Dispatch(t: nat, s: Text)
    requires t < 256
    ensures EatField(HexByte(t) + s) ==
      if t == TAG_PUBKEY then Ok((Pubkey(EatPubkey(s).0), EatPubkey(s).1))
      else if t == TAG_NONCE then EatNonce(s)
      else if t == TAG_NAME_SYSTEM then EatOns(s)
      else if t == TAG_BURN then EatBurn(s)
      else Err(KeyError)
  {
    Cut(HexByte(t), s);
    assert ByteOf(t / 16, t % 16) == t;
  }

  /** A printed field followed by anything is eaten back, exactly when it is readable; an
      unreadable one is refused or comes out different. */
  lemma FieldEaten(f: Field, rest: Text)
    requires Printable(f)
    ensures var r := EatField(HexByte(TagOf(f)) + (PrintBody(f) + rest));
      if Readable(f) then r == Ok((f, rest)) else r.Ok? ==> r.value.0 != f
  {
    Dispatch(TagOf(f), PrintBody(f) + rest);
    match f
    case Pubkey(key) => Cut(key, rest);
    case Nonce(kind, data) => NonceEaten(kind, data, rest);
    case Burn(amount) => BurnEaten(amount, rest);
    case NameSystem(ons) => OnsEaten(ons, rest);
  }

  lemma ParseOne(f: Field, rest: Text)
    requires Printable(f)
    ensures var r := Parse(HexByte(TagOf(f)) + (PrintBody(f) + rest));
      if Readable(f) then r == (match Parse(rest) case Ok(fs) => Ok([f] + fs) case Err(e) => Err(e))
      else r.Ok? ==> r.value != [] && r.value[0] != f
  {
    FieldEaten(f, rest);
  }

  /** Parsing the printed form of a list of fields gives the list back exactly when every
      field in it is readable. */
  lemma {:induction false} RoundTripIff(fs: seq<Field>)
    requires AllPrintable(fs)
    ensures Parse(Print(fs)) == Ok(fs) <==> forall i :: 0 <= i < |fs| ==> Readable(fs[i])
    decreases |fs|
  {
    if fs != [] {
      var f, rest := fs[0], fs[1..];
      assert fs == [f] + rest;
      ParseOne(f, Print(rest));
      RoundTripIff(rest);
      if Parse(Print(rest)).Ok? {
        SameTail(f, Parse(Print(rest)).value, rest);
      }
      assert (forall i :: 0 <= i < |fs| ==> Readable(fs[i])) <==>
        Readable(f) && forall i :: 0 <= i < |rest| ==> Readable(rest[i]) by {
        assert forall i :: 0 <= i < |rest| ==> rest[i] == fs[i + 1];
      }
    }
  }

  lemma SameTail(f: Field, a: seq<Field>, b: seq<Field>)
    ensures [f] + a == [f] + b <==> a == b
  {
    assert ([f] + a)[1..] == a && ([f] + b)[1..] == b;
  }
}
