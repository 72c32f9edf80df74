/** The decoder that eats its text in place. */
module TxExtraDecoder {
  import opened Wrappers
  import opened TxExtra

  class Decoder {
    var text: Text

    constructor (t: Text)
      ensures text == t
    {
      text := t;
    }

    method Take(n: int) returns (t: Text)
      modifies this
      ensures t == SliceTo(old(text), n) && text == SliceFrom(old(text), n)
    {
      t := SliceTo(text, n);
      text := SliceFrom(text, n);
    }

    method EatPubkeyData() returns (f: Field)
      modifies this
      ensures (f, text) == (Pubkey(EatPubkey(old(text)).0), EatPubkey(old(text)).1)
    {
      var key := Take(64);
      f := Pubkey(key);
    }

    method EatNonceData() returns (r: Result<Field, Error>)
      modifies this
      ensures match EatNonce(old(text))
        case Ok((f, rest)) => r == Ok(f) && text == rest
        case Err(e) => r == Err(e)
    {
      var count := Decimal(SliceTo(text, 2));
      if count.Err? {
        return Err(count.error);
      }
      var size: int := (count.value as int - 1) * 2;
      text := SliceFrom(text, 2);
      var tag := Take(2);
      var data := Take(size);
      var kind := NonceKindOf(tag);
      if kind.Err? {
        return Err(kind.error);
      }
      r := Ok(Nonce(kind.value, data));
    }

    method EatGenericOwner() returns (o: Owner)
      modifies this
      ensures (o, text) == EatOwner(old(text))
    {
      var kind := Take(2);
      var spendKey := Take(64);
      var viewKey := Take(64);
      var isSubaddress := Take(2);
      o := Owner(kind, spendKey, viewKey, isSubaddress);
    }

    method EatOptionalParts(ons: Ons) returns (r: Result<Field, Error>)
      modifies this
      ensures match EatOnsParts(old(text), ons)
        case Ok((f, rest)) => r == Ok(f) && text == rest
        case Err(e) => r == Err(e)
    {
      var owner, backupOwner, signature, value := None, None, None, None;
      if Has(ons.fields, OWNER) {
        var o := EatGenericOwner();
        owner := Some(o);
      }
      if Has(ons.fields, BACKUP_OWNER) {
        var o := EatGenericOwner();
        backupOwner := Some(o);
      }
      if Has(ons.fields, SIGNATURE) {
        var t := Take(64);
        signature := Some(t);
      }
      if Has(ons.fields, ENCRYPTED_VALUE) {
        var count := Hex(SliceTo(text, 2));
        if count.Err? {
          return Err(count.error);
        }
        text := SliceFrom(text, 2);
        var t := Take(count.value * 2);
        value := Some(t);
      }
      r := Ok(NameSystem(ons.(owner := owner, backupOwner := backupOwner, signature := signature,
                              encryptedValue := value)));
    }

    method EatOnsData() returns (r: Result<Field, Error>)
      modifies this
      ensures match EatOns(old(text))
        case Ok((f, rest)) => r == Ok(f) && text == rest
        case Err(e) => r == Err(e)
    {
      var version := Take(2);
      var tag := Take(2);
      var nameHash := Take(64);
      var prevTxid := Take(64);
      var fields := Decimal(SliceTo(text, 2));
      if fields.Err? {
        return Err(fields.error);
      }
      var kind := OnsTypeOf(tag);
      if kind.Err? {
        return Err(kind.error);
      }
      text := SliceFrom(text, 2);
      r := EatOptionalParts(Ons(version, kind.value, nameHash, prevTxid, fields.value, None, None, None, None));
    }

    method EatUint64() returns (r: Result<nat, Error>)
      modifies this
      ensures text == SliceFrom(old(text), 16)
      ensures var digits := SliceTo(old(text), 16);
        r == if |digits| % 2 != 0 then Err(ValueError) else Ok(LittleEndian(digits))
    {
      var digits := Take(16);
      if |digits| % 2 != 0 {
        return Err(ValueError);
      }
      var value := FromBytes(digits);
      r := Ok(value);
    }

    /** Pair by pair from the most significant end. */
    static method FromBytes(digits: Text) returns (value: nat)
      requires |digits| % 2 == 0
      ensures value == LittleEndian(digits)
    {
      value := 0;
      var i := |digits|;
      assert digits[|digits|..] == [];
      while i > 0
        invariant 0 <= i <= |digits| && i % 2 == 0
        invariant value == LittleEndian(digits[i..])
      {
        i := i - 2;
        LittleEndianStep(digits, i);
        value := value * 256 + ByteOf(digits[i], digits[i + 1]);
      }
      assert digits[0..] == digits;
    }

    method EatBurnData() returns (r: Result<Field, Error>)
      modifies this
      ensures match EatBurn(old(text))
        case Ok((f, rest)) => r == Ok(f) && text == rest
        case Err(e) => r == Err(e)
    {
      var amount := EatUint64();
      r := if amount.Ok? then Ok(Burn(amount.value)) else Err(amount.error);
    }

    method EatTagged() returns (r: Result<Field, Error>)
      requires text != []
      modifies this
      ensures match EatField(old(text))
        case Ok((f, rest)) => r == Ok(f) && text == rest
        case Err(e) => r == Err(e)
    {
      var tag := Take(2);
      if |tag| < 2 {
        return Err(KeyError);
      }
      var t := ByteOf(tag[0], tag[1]);
      if t == TAG_PUBKEY {
        var f := EatPubkeyData();
        r := Ok(f);
      } else if t == TAG_NONCE {
        r := EatNonceData();
      } else if t == TAG_NAME_SYSTEM {
        r := EatOnsData();
      } else if t == TAG_BURN {
        r := EatBurnData();
      } else {
        r := Err(KeyError);
      }
    }

    /** Eats fields until the text is used up. */
    method Decode() returns (r: Result<seq<Field>, Error>)
      modifies this
      ensures r == Parse(old(text))
      ensures r.Ok? ==> text == []
      ensures forall fs: seq<Field> | AllPrintable(fs) && old(text) == Print(fs) ::
        r == Ok(fs) <==> forall i :: 0 <= i < |fs| ==> Readable(fs[i])
    {
      forall fs: seq<Field> | AllPrintable(fs) && text == Print(fs)
        ensures Parse(text) == Ok(fs) <==> forall i :: 0 <= i < |fs| ==> Readable(fs[i])
      {
        RoundTripIff(fs);
      }
      var fields := [];
      PrefixedByNothing(Parse(text));
      while text != []
        invariant Parse(old(text)) == Prefixed(fields, Parse(text))
        decreases |text|
      {
        ghost var before, done := text, fields;
        var field := EatTagged();
        ParseStep(before, done);
        if field.Err? {
          return Err(field.error);
        }
        fields := fields + [field.value];
      }
      assert fields + [] == fields;
      r := Ok(fields);
    }
  }

  lemma LittleEndianStep(digits: Text, i: nat)
    requires |digits| % 2 == 0 && i % 2 == 0 && i + 2 <= |digits|
    ensures LittleEndian(digits[i..]) == ByteOf(digits[i], digits[i + 1]) + 256 * LittleEndian(digits[i + 2..])
  {
    assert digits[i..][2..] == digits[i + 2..];
  }

  /** The fields found so far, before what is still to be found. */
  function Prefixed(done: seq<Field>, r: Result<seq<Field>, Error>): Result<seq<Field>, Error> {
    match r
    case Ok(fs) => Ok(done + fs)
    case Err(e) => Err(e)
  }

  lemma PrefixedByNothing(r: Result<seq<Field>, Error>)
    ensures Prefixed([], r) == r
  {
    match r
    case Err(_) =>
    case Ok(fs) => assert [] + fs == fs;
  }

  lemma ParseStep(s: Text, done: seq<Field>)
    requires s != []
    ensures Prefixed(done, Parse(s)) ==
      match EatField(s)
      case Err(e) => Err(e)
      case Ok((f, rest)) => Prefixed(done + [f], Parse(rest))
  {
    match EatField(s)
    case Err(_) =>
    case Ok((f, rest)) =>
      match Parse(rest)
      case Err(_) =>
      case Ok(fs) => assert done + ([f] + fs) == done + [f] + fs;
  }
}
