/**
 * Bare-metal register descriptions. A `RegisterDefinition` hands out bit
 * positions from a running offset and installs accessor methods on the
 * register's class; each accessor reads or updates the register's integer
 * `value` with mask arithmetic.
 */
module Registers {
  import opened Wrappers
  import opened Objects
  import opened RegisterBits

  const FlagTypes: seq<string> := ["r", "w", "rw", "r_c0", "r_c1"]
  const FieldTypes: seq<string> := ["r", "w", "rw"]

  /** `r?`: the access types that get a reader. */
  predicate IsReadable(t: string) { t in ["r", "rw", "r_c0", "r_c1"] }
  /** `w?`: the access types that get a writer. */
  predicate IsWritable(t: string) { t in ["w", "rw"] }
  /** `c0?`: cleared by writing a zero into the bit. */
  predicate IsClearZero(t: string) { t == "r_c0" }
  /** `c1?`: cleared by writing a one into the bit (and zeros elsewhere). */
  predicate IsClearOne(t: string) { t == "r_c1" }

  /** `check_type`: raises `ArgumentError` unless the type is one of `list`. */
  function CheckType(t: string, list: seq<string>): (r: Result<()>)
    ensures r.Ok? <==> t in list
    ensures r.Err? ==> r.error.kind == ArgumentError
  {
    if t in list then Ok(()) else Err(Exception(ArgumentError, "Invalid field type " + t))
  }

  /** `1 << offset`: the mask of a flag. */
  function FlagMask(offset: nat): nat {
    Shl(1, offset)
  }

  /** `2 ** width - 1`: the mask of a field, as written NOT moved to the field's offset. */
  function FieldMask(width: nat): nat {
    Shl(1, width) - 1
  }

  /** One accessor method that a declaration installs on the register class. */
  datatype Accessor =
    | FlagReader(mask: nat)
    | FlagWriter(mask: nat)
    | FlagClearOne(mask: nat)
    | FlagClearZero(mask: nat)
    | FieldReader(mask: nat, offset: nat)
    | FieldWriter(mask: nat, offset: nat)

  /** A declared bit range: `start` and `width` in bits. */
  datatype Range = Range(start: nat, width: nat)

  /** The methods that `flag(name, type)` installs when the running offset is `offset`. */
  function FlagMethods(name: string, t: string, offset: nat): (m: map<string, Accessor>)
    ensures name in m <==> IsReadable(t)
    ensures name + "=" in m <==> IsWritable(t)
    ensures "clear_" + name in m <==> IsClearZero(t) || IsClearOne(t)
    ensures forall k :: k in m ==> k == name || k == name + "=" || k == "clear_" + name
    ensures forall k :: k in m ==> m[k].mask == FlagMask(offset)
    ensures IsReadable(t) ==> m[name] == FlagReader(FlagMask(offset))
    ensures IsWritable(t) ==> m[name + "="] == FlagWriter(FlagMask(offset))
    ensures IsClearOne(t) ==> m["clear_" + name] == FlagClearOne(FlagMask(offset))
    ensures IsClearZero(t) ==> m["clear_" + name] == FlagClearZero(FlagMask(offset))
  {
    var mask := FlagMask(offset);
    var m1 := if IsReadable(t) then map[name := FlagReader(mask)] else map[];
    var m2 := if IsWritable(t) then m1[name + "=" := FlagWriter(mask)] else m1;
    var m3 := if IsClearOne(t) then m2["clear_" + name := FlagClearOne(mask)] else m2;
    if IsClearZero(t) then m3["clear_" + name := FlagClearZero(mask)] else m3
  }

  /** The methods that `field(name, type, width)` installs when the running offset is `offset`. */
  function FieldMethods(name: string, t: string, width: nat, offset: nat): (m: map<string, Accessor>)
    ensures name in m <==> IsReadable(t)
    ensures name + "=" in m <==> IsWritable(t)
    ensures forall k :: k in m ==> k == name || k == name + "="
    ensures IsReadable(t) ==> m[name] == FieldReader(FieldMask(width), offset)
    ensures IsWritable(t) ==> m[name + "="] == FieldWriter(FieldMask(width), offset)
  {
    var mask := FieldMask(width);
    var m1 := if IsReadable(t) then map[name := FieldReader(mask, offset)] else map[];
    if IsWritable(t) then m1[name + "=" := FieldWriter(mask, offset)] else m1
  }

  /**
   * The allocator. `offset` is the next free bit; `methods` are the accessors
   * installed on the register class so far (a later definition of a name
   * replaces an earlier one, as `define_method` does); `declared` records the
   * bit range of every flag, field and reserved gap.
   */
  class RegisterDefinition {
    var offset: nat
    var methods: map<string, Accessor>
    ghost var declared: seq<Range>

    /** Declarations never overlap and all lie below the running offset, in order. */
    ghost predicate Valid()
      reads this
    {
      && (forall i, j :: 0 <= i < j < |declared| ==>
            declared[i].start + declared[i].width <= declared[j].start)
      && (forall i :: 0 <= i < |declared| ==> declared[i].start + declared[i].width <= offset)
    }

    constructor ()
      ensures Valid()
      ensures offset == 0 && methods == map[] && declared == []
    {
      offset := 0;
      methods := map[];
      declared := [];
    }

    /** `reserved(size)`: skip `size` bits. */
    method Reserved(size: nat) returns (newOffset: nat)
      requires Valid()
      modifies this
      ensures Valid()
      ensures offset == old(offset) + size && newOffset == offset
      ensures methods == old(methods)
      ensures declared == old(declared) + [Range(old(offset), size)]
    {
      declared := declared + [Range(offset, size)];
      offset := offset + size;
      newOffset := offset;
    }

    /** `flag(name, type)`: one bit at the running offset. */
    method Flag(name: string, t: string) returns (r: Result<nat>)
      requires Valid()
      modifies this
      ensures Valid()
      ensures r.Ok? <==> t in FlagTypes
      ensures r.Err? ==> r.error.kind == ArgumentError && unchanged(this)
      ensures r.Ok? ==> && offset == old(offset) + 1 && r.value == offset
                        && methods == old(methods) + FlagMethods(name, t, old(offset))
                        && declared == old(declared) + [Range(old(offset), 1)]
    {
      var checked := CheckType(t, FlagTypes);
      if checked.Err? {
        return Err(checked.error);
      }
      methods := methods + FlagMethods(name, t, offset);
      declared := declared + [Range(offset, 1)];
      offset := offset + 1;
      r := Ok(offset);
    }

    /** `field(name, type, width)`: `width` bits at the running offset. */
    method Field(name: string, t: string, width: nat) returns (r: Result<nat>)
      requires Valid()
      modifies this
      ensures Valid()
      ensures r.Ok? <==> t in FieldTypes
      ensures r.Err? ==> r.error.kind == ArgumentError && unchanged(this)
      ensures r.Ok? ==> && offset == old(offset) + width && r.value == offset
                        && methods == old(methods) + FieldMethods(name, t, width, old(offset))
                        && declared == old(declared) + [Range(old(offset), width)]
    {
      var checked := CheckType(t, FieldTypes);
      if checked.Err? {
        return Err(checked.error);
      }
      methods := methods + FieldMethods(name, t, width, offset);
      declared := declared + [Range(offset, width)];
      offset := offset + width;
      r := Ok(offset);
    }
  }

  /*
   * What the accessors compute. A reader gives what it reads; every other
   * accessor gives the register's new `value`.
   */

  /** The flag reader as written: `(value & mask) ? true : false`, where the masked value is an Integer. */
  function ReadFlagAsWritten(value: nat, mask: nat): Value {
    if Truthy(Integer(And(value, mask))) then True else False
  }

  /** The flag reader as evidently intended: `true` exactly when a masked bit is set. */
  function ReadFlag(value: nat, mask: nat): (r: Value)
    ensures r == True || r == False
  {
    Boolean(And(value, mask) != 0)
  }

  /** `name=` of a flag: set the mask's bits when `newValue` is truthy, clear them otherwise. */
  function WriteFlag(value: nat, mask: nat, newValue: Value): nat {
    Or(AndNot(value, mask), if Truthy(newValue) then mask else 0)
  }

  /** `clear_name` of an `r_c1` flag: the register becomes exactly the mask. */
  function ClearOne(value: nat, mask: nat): nat {
    mask
  }

  /** `clear_name` of an `r_c0` flag: `value &= ~mask`. */
  function ClearZero(value: nat, mask: nat): nat {
    AndNot(value, mask)
  }

  /** A field reader: `(value & mask) >> offset`. */
  function ReadField(value: nat, mask: nat, offset: nat): nat {
    Shr(And(value, mask), offset)
  }

  /** A field writer: `(value & ~mask) | ((newValue << offset) & mask)`. */
  function WriteField(value: nat, mask: nat, offset: nat, newValue: nat): nat {
    Or(AndNot(value, mask), And(Shl(newValue, offset), mask))
  }

  /** The field mask as evidently intended: `2 ** width - 1` moved up to the field's offset. */
  function ShiftedFieldMask(width: nat, offset: nat): nat {
    Shl(FieldMask(width), offset)
  }

  /**
   * An instance of a register class. The installed accessors are its
   * methods and act on `value` in place; each takes the mask (and offset)
   * that its declaration captured.
   */
  class Register {
    var value: nat

    constructor (initial: nat)
      ensures value == initial
    {
      value := initial;
    }

    /** A flag reader. */
    method GetFlag(mask: nat) returns (r: Value)
      ensures r == ReadFlagAsWritten(value, mask)
    {
      var masked := And(value, mask);
      r := if Truthy(Integer(masked)) then True else False;
    }

    /** A flag writer. */
    method SetFlag(mask: nat, newValue: Value)
      modifies this
      ensures value == WriteFlag(old(value), mask, newValue)
    {
      value := Or(AndNot(value, mask), if Truthy(newValue) then mask else 0);
    }

    /** `clear_` of an `r_c1` flag. */
    method ClearFlagWritingOne(mask: nat)
      modifies this
      ensures value == ClearOne(old(value), mask)
    {
      value := mask;
    }

    /** `clear_` of an `r_c0` flag. */
    method ClearFlagWritingZero(mask: nat)
      modifies this
      ensures value == ClearZero(old(value), mask)
    {
      value := AndNot(value, mask);
    }

    /** A field reader. */
    method GetField(mask: nat, offset: nat) returns (n: nat)
      ensures n == ReadField(value, mask, offset)
    {
      n := Shr(And(value, mask), offset);
    }

    /** A field writer; `newValue` is the field's width-typed integer. */
    method SetField(mask: nat, offset: nat, newValue: nat)
      modifies this
      ensures value == WriteField(old(value), mask, offset, newValue)
    {
      value := Or(AndNot(value, mask), And(Shl(newValue, offset), mask));
    }
  }

  // ---- flags ----

  /** A flag writer sets or clears its own bit, following the truthiness of the new value, and keeps every other bit. */
  lemma WriteFlagTouchesOnlyItsBit(value: nat, offset: nat, newValue: Value, i: nat)
    ensures Bit(WriteFlag(value, FlagMask(offset), newValue), i)
            == if i == offset then Truthy(newValue) else Bit(value, i)
  {
    var mask := FlagMask(offset);
    BitOfOr(AndNot(value, mask), if Truthy(newValue) then mask else 0, i);
    BitOfAndNot(value, mask, i);
    BitOfPower(offset, i);
    BitOfZero(i);
  }

  /** `clear_` of an `r_c0` flag clears exactly its bit. */
  lemma ClearZeroTouchesOnlyItsBit(value: nat, offset: nat, i: nat)
    ensures Bit(ClearZero(value, FlagMask(offset)), i) == (i != offset && Bit(value, i))
  {
    BitOfAndNot(value, FlagMask(offset), i);
    BitOfPower(offset, i);
  }

  /** `clear_` of an `r_c1` flag writes a one into its bit and zeros everywhere else. */
  lemma ClearOneWritesOnlyItsBit(value: nat, offset: nat, i: nat)
    ensures Bit(ClearOne(value, FlagMask(offset)), i) == (i == offset)
  {
    BitOfPower(offset, i);
  }

  /** Masking a value with a flag's mask keeps only the flag's bit. */
  lemma MaskedFlag(value: nat, offset: nat)
    ensures And(value, FlagMask(offset)) != 0 <==> Bit(value, offset)
  {
    var masked := And(value, FlagMask(offset));
    forall i: nat
      ensures Bit(masked, i) == (i == offset && Bit(value, i))
    {
      BitOfAnd(value, FlagMask(offset), i);
      BitOfPower(offset, i);
    }
    if !Bit(value, offset) {
      NoBitsIsZero(masked);
    } else {
      BitOfZero(offset);
    }
  }

  /** The intended flag reader reads the flag's bit. */
  lemma ReadFlagReadsItsBit(value: nat, offset: nat)
    ensures ReadFlag(value, FlagMask(offset)) == Boolean(Bit(value, offset))
  {
    MaskedFlag(value, offset);
  }

  /** The intended flag reader reads back what the writer stored. */
  lemma FlagWriteThenRead(value: nat, offset: nat, newValue: Value)
    ensures ReadFlag(WriteFlag(value, FlagMask(offset), newValue), FlagMask(offset))
            == Boolean(Truthy(newValue))
  {
    var written := WriteFlag(value, FlagMask(offset), newValue);
    ReadFlagReadsItsBit(written, offset);
    WriteFlagTouchesOnlyItsBit(value, offset, newValue, offset);
  }

  /** The flag reader as written answers `true` whatever the register holds. */
  lemma ReadFlagAsWrittenIsAlwaysTrue(value: nat, mask: nat)
    ensures ReadFlagAsWritten(value, mask) == True
  {
  }

  /** Concretely: a cleared bit 0 still reads as `true`, while the bit itself is clear. */
  lemma ReadFlagAsWrittenCounterexample()
    ensures ReadFlagAsWritten(0, FlagMask(0)) == True
    ensures ReadFlag(0, FlagMask(0)) == False
  {
  }

  // ---- fields ----

  /** Bits of a field write: inside the mask the shifted new value, outside it the old value. */
  lemma BitOfWriteField(value: nat, mask: nat, offset: nat, newValue: nat, i: nat)
    ensures Bit(WriteField(value, mask, offset, newValue), i)
            == if Bit(mask, i) then offset <= i && Bit(newValue, i - offset) else Bit(value, i)
  {
    BitOfOr(AndNot(value, mask), And(Shl(newValue, offset), mask), i);
    BitOfAndNot(value, mask, i);
    BitOfAnd(Shl(newValue, offset), mask, i);
    BitOfShl(newValue, offset, i);
  }

  /** Bits of a field read: bit `i` is the register's bit `i + offset` where the mask has it. */
  lemma BitOfReadField(value: nat, mask: nat, offset: nat, i: nat)
    ensures Bit(ReadField(value, mask, offset), i) == (Bit(mask, i + offset) && Bit(value, i + offset))
  {
    BitOfShr(And(value, mask), offset, i);
    BitOfAnd(value, mask, i + offset);
  }

  /** At offset 0 the accessors as written round-trip every value that fits in the field. */
  lemma {:induction false} FieldRoundTripAtOffsetZero(value: nat, width: nat, n: nat)
    requires n < Shl(1, width)
    ensures ReadField(WriteField(value, FieldMask(width), 0, n), FieldMask(width), 0) == n
  {
    var written := WriteField(value, FieldMask(width), 0, n);
    forall i: nat
      ensures Bit(ReadField(written, FieldMask(width), 0), i) == Bit(n, i)
    {
      BitOfReadField(written, FieldMask(width), 0, i);
      BitOfWriteField(value, FieldMask(width), 0, n, i);
      BitOfPowerMinusOne(width, i);
      if width <= i {
        BitBelowPower(n, width, i);
      }
    }
    BitsDetermine(ReadField(written, FieldMask(width), 0), n);
  }

  /** As written, a field placed at or above its own width always reads 0. */
  lemma {:induction false} FieldReadAsWrittenAboveWidth(value: nat, width: nat, offset: nat)
    requires width <= offset
    ensures ReadField(value, FieldMask(width), offset) == 0
  {
    forall i: nat
      ensures !Bit(ReadField(value, FieldMask(width), offset), i)
    {
      BitOfReadField(value, FieldMask(width), offset, i);
      BitOfPowerMinusOne(width, i + offset);
    }
    NoBitsIsZero(ReadField(value, FieldMask(width), offset));
  }

  /** Concretely: a 4-bit field at offset 4 stores nothing of a written 1 and reads 0. */
  lemma FieldAtOffsetFourCounterexample(value: nat)
    ensures ReadField(WriteField(value, FieldMask(4), 4, 1), FieldMask(4), 4) == 0
  {
    FieldReadAsWrittenAboveWidth(WriteField(value, FieldMask(4), 4, 1), 4, 4);
  }

  /** With the mask moved to the field's offset, every value that fits reads back, at any offset. */
  lemma {:induction false} ShiftedFieldRoundTrip(value: nat, width: nat, offset: nat, n: nat)
    requires n < Shl(1, width)
    ensures ReadField(WriteField(value, ShiftedFieldMask(width, offset), offset, n),
                      ShiftedFieldMask(width, offset), offset) == n
  {
    var mask := ShiftedFieldMask(width, offset);
    var written := WriteField(value, mask, offset, n);
    forall i: nat
      ensures Bit(ReadField(written, mask, offset), i) == Bit(n, i)
    {
      BitOfReadField(written, mask, offset, i);
      BitOfWriteField(value, mask, offset, n, i + offset);
      BitOfShl(FieldMask(width), offset, i + offset);
      BitOfPowerMinusOne(width, i);
      if width <= i {
        BitBelowPower(n, width, i);
      }
    }
    BitsDetermine(ReadField(written, mask, offset), n);
  }

  /** With the mask moved to the field's offset, a write keeps every bit outside the field. */
  lemma ShiftedFieldKeepsOtherBits(value: nat, width: nat, offset: nat, n: nat, i: nat)
    requires i < offset || offset + width <= i
    ensures Bit(WriteField(value, ShiftedFieldMask(width, offset), offset, n), i) == Bit(value, i)
  {
    BitOfWriteField(value, ShiftedFieldMask(width, offset), offset, n, i);
    BitOfShl(FieldMask(width), offset, i);
    if offset <= i {
      BitOfPowerMinusOne(width, i - offset);
    }
  }
}
