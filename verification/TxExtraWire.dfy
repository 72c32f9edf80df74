/** The extra data digit by digit: where each part of a field stands in the text. */
module TxExtraWire {
  import opened Wrappers
  import opened TxExtra

  /** 01, then the key. */
  lemma PubkeyOnWire(key: Text, rest: Text)
    requires |key| == 64
    ensures EatField([0, 1] + (key + rest)) == Ok((Pubkey(key), rest))
  {
    assert HexByte(0x01) == [0, 1];
    Dispatch(0x01, key + rest);
    Cut(key, rest);
  }

  /** 02, the size of tag and data in bytes, the tag, which is 00 or 01, and the data. */
  lemma NonceOnWire(kind: NonceKind, tag: Text, data: Text, rest: Text, size: nat)
    requires tag == if kind == PaymentId then [0, 0] else [0, 1]
    requires |data| % 2 == 0 && size == |data| / 2 + 1 <= 9
    ensures EatField([0, 2] + ([0, size] + (tag + (data + rest)))) == Ok((Nonce(kind, data), rest))
  {
    TagPrinted(kind, tag);
    NonceText(kind, data, rest, size);
    FieldEaten(Nonce(kind, data), rest);
  }

  lemma TagPrinted(kind: NonceKind, tag: Text)
    requires tag == if kind == PaymentId then [0, 0] else [0, 1]
    ensures tag == NonceTag(kind)
  {
  }

  lemma NonceText(kind: NonceKind, data: Text, rest: Text, size: nat)
    requires |data| % 2 == 0 && size == |data| / 2 + 1 <= 9
    ensures HexByte(TagOf(Nonce(kind, data))) + (PrintBody(Nonce(kind, data)) + rest) ==
      [0, 2] + ([0, size] + (NonceTag(kind) + (data + rest)))
  {
    assert HexByte(TagOf(Nonce(kind, data))) == [0, 2];
    assert HexByte(size) == [0, size];
    Grouped(HexByte(size), NonceTag(kind), data, rest);
  }

  lemma Grouped(a: Text, b: Text, c: Text, d: Text)
    ensures a + (b + c) + d == a + (b + (c + d))
  {
  }

  /** 79, then eight bytes of which the last counts most. */
  lemma BurnOnWire(d: Text, rest: Text)
    requires |d| == 16
    ensures EatField([7, 9] + (d + rest)) == Ok((Burn(LittleEndian(d)), rest))
    ensures LittleEndian(d) ==
      ByteOf(d[0], d[1]) + 256 * (ByteOf(d[2], d[3]) + 256 * (ByteOf(d[4], d[5]) + 256 * (ByteOf(d[6], d[7])
      + 256 * (ByteOf(d[8], d[9]) + 256 * (ByteOf(d[10], d[11]) + 256 * (ByteOf(d[12], d[13])
      + 256 * ByteOf(d[14], d[15])))))))
  {
    assert HexByte(0x79) == [7, 9];
    Dispatch(0x79, d + rest);
    Cut(d, rest);
    EightPairs(d);
  }

  lemma LittleEndianAt(d: Text, i: nat)
    requires |d| == 16 && i % 2 == 0 && i < 16
    ensures LittleEndian(d[i..]) == ByteOf(d[i], d[i + 1]) + 256 * LittleEndian(d[i + 2..])
  {
    assert d[i..][2..] == d[i + 2..];
  }

  lemma EightPairs(d: Text)
    requires |d| == 16
    ensures LittleEndian(d) ==
      ByteOf(d[0], d[1]) + 256 * (ByteOf(d[2], d[3]) + 256 * (ByteOf(d[4], d[5]) + 256 * (ByteOf(d[6], d[7])
      + 256 * (ByteOf(d[8], d[9]) + 256 * (ByteOf(d[10], d[11]) + 256 * (ByteOf(d[12], d[13])
      + 256 * ByteOf(d[14], d[15])))))))
  {
    LittleEndianAt(d, 0);
    LittleEndianAt(d, 2);
    LittleEndianAt(d, 4);
    LittleEndianAt(d, 6);
    LittleEndianAt(d, 8);
    LittleEndianAt(d, 10);
    LittleEndianAt(d, 12);
    LittleEndianAt(d, 14);
    assert d[0..] == d && d[16..] == [];
  }

  /** A burn of seven coins, 7900863ba101000000. */
  lemma SevenCoins()
    ensures EatField([7, 9] + [0, 0, 8, 6, 3, 11, 10, 1, 0, 1, 0, 0, 0, 0, 0, 0]) == Ok((Burn(7_000_000_000), []))
  {
    var d: Text := [0, 0, 8, 6, 3, 11, 10, 1, 0, 1, 0, 0, 0, 0, 0, 0];
    BurnOnWire(d, []);
    assert d + [] == d;
    assert ByteOf(8, 6) == 134 && ByteOf(3, 11) == 59 && ByteOf(10, 1) == 161 && ByteOf(0, 1) == 1;
  }

  /** An owner is its kind, spend key, view key and subaddress flag, when it is there. */
  function OwnerText(there: bool, w: Owner): Text {
    if there then w.kind + (w.spendKey + (w.viewKey + w.isSubaddress)) else []
  }

  predicate OwnerFits(w: Owner) {
    |w.kind| == 2 && |w.spendKey| == 64 && |w.viewKey| == 64 && |w.isSubaddress| == 2
  }

  function KindOf(t: nat): OnsType
    requires t <= 5
  {
    [Session, Wallet, Lokinet, Lokinet2Years, Lokinet5Years, Lokinet10Years][t]
  }

  /** What follows the flags: bit 0 says that an owner comes, bit 1 a backup owner, bit 2 a
      signature of 64 digits and bit 3 a value with its size in bytes before it. */
  function PartsText(f: nat, owner: Owner, backup: Owner, signature: Text, value: Text): Text
    requires |value| / 2 < 256
  {
    OwnerText(f % 2 == 1, owner)
    + (OwnerText(f / 2 % 2 == 1, backup)
       + ((if f / 4 % 2 == 1 then signature else [])
          + (if f / 8 % 2 == 1 then [|value| / 2 / 16, |value| / 2 % 16] + value else [])))
  }

  /** The field with the parts that the flags announce. */
  function OnsOf(version: Text, t: nat, nameHash: Text, prevTxid: Text, f: nat, owner: Owner, backup: Owner,
                 signature: Text, value: Text): Ons
    requires t <= 5
  {
    Ons(version, KindOf(t), nameHash, prevTxid, f,
        if f % 2 == 1 then Some(owner) else None,
        if f / 2 % 2 == 1 then Some(backup) else None,
        if f / 4 % 2 == 1 then Some(signature) else None,
        if f / 8 % 2 == 1 then Some(value) else None)
  }

  /** 7a, then version, type, name hash, previous transaction, flags and the parts they announce. */
  lemma OnsOnWire(version: Text, t: nat, nameHash: Text, prevTxid: Text, f: nat, owner: Owner, backup: Owner,
                  signature: Text, value: Text, rest: Text)
    requires |version| == 2 && t <= 5 && |nameHash| == 64 && |prevTxid| == 64 && f <= 9
    requires OwnerFits(owner) && OwnerFits(backup) && |signature| == 64 && |value| % 2 == 0 && |value| < 512
    ensures var parts := PartsText(f, owner, backup, signature, value);
      EatField([7, 10] + (version + ([0, t] + (nameHash + (prevTxid + ([0, f] + (parts + rest))))))) ==
        Ok((NameSystem(OnsOf(version, t, nameHash, prevTxid, f, owner, backup, signature, value)), rest))
  {
    var o := OnsOf(version, t, nameHash, prevTxid, f, owner, backup, signature, value);
    OnsFits(version, t, nameHash, prevTxid, f, owner, backup, signature, value);
    PartsPrinted(o, version, t, nameHash, prevTxid, f, owner, backup, signature, value);
    TypePrinted(t);
    assert HexByte(0x7A) == [7, 10] && HexByte(f) == [0, f];
    PrintOnsThen(o, rest);
    FieldEaten(NameSystem(o), rest);
  }

  lemma TypePrinted(t: nat)
    requires t <= 5
    ensures OnsTag(KindOf(t)) == [0, t]
  {
  }

  lemma OnsFits(version: Text, t: nat, nameHash: Text, prevTxid: Text, f: nat, owner: Owner, backup: Owner,
                signature: Text, value: Text)
    requires |version| == 2 && t <= 5 && |nameHash| == 64 && |prevTxid| == 64 && f <= 9
    requires OwnerFits(owner) && OwnerFits(backup) && |signature| == 64 && |value| % 2 == 0 && |value| < 512
    ensures OnsPrintable(OnsOf(version, t, nameHash, prevTxid, f, owner, backup, signature, value))
  {
  }

  lemma PartsPrinted(o: Ons, version: Text, t: nat, nameHash: Text, prevTxid: Text, f: nat, owner: Owner,
                     backup: Owner, signature: Text, value: Text)
    requires t <= 5 && |value| < 512 && f <= 9
    requires o == OnsOf(version, t, nameHash, prevTxid, f, owner, backup, signature, value) && OnsPrintable(o)
    ensures PrintOnsParts(o) == PartsText(f, owner, backup, signature, value)
  {
    assert PrintOwnerOpt(o.owner) == OwnerText(f % 2 == 1, owner);
    assert PrintOwnerOpt(o.backupOwner) == OwnerText(f / 2 % 2 == 1, backup);
    assert HexByte(|value| / 2) == [|value| / 2 / 16, |value| / 2 % 16];
  }
}
