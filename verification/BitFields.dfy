/** Named flags stored in one integer. */
module BitFields {
  import opened Wrappers
  import opened Bits

  /** `int(len(bin(BigIntegerField.MAX_BIGINT)) - 2)` */
  const MAX_FLAG_COUNT := 63

  /** `keys.index(key)`: the first occurrence. */
  function IndexOf(keys: seq<string>, key: string): (i: nat)
    requires key in keys
    ensures i < |keys| && keys[i] == key && forall j :: 0 <= j < i ==> keys[j] != key
  {
    if keys[0] == key then 0
    else
      var i := IndexOf(keys[1..], key) + 1;
      assert forall j :: 0 < j < i ==> keys[j] == keys[1..][j - 1];
      i
  }

  /** What a reader sees: each flag name with its bit. */
  function Flags(value: int, keys: seq<string>): map<string, bool> {
    map k | k in keys :: TestBit(value, IndexOf(keys, k))
  }

  /** The value after writing bit `n`. */
  function WithBit(value: int, n: nat, on: bool): int {
    if on then Or(value, Pow2(n)) else And(value, Not(Pow2(n)))
  }

  lemma WithBitBits(value: int, n: nat, on: bool, k: nat)
    ensures TestBit(WithBit(value, n, on), k) <==> if k == n then on else TestBit(value, k)
  {
    Pow2Bit(n, k);
    if on {
      OrBit(value, Pow2(n), k);
    } else {
      NotBit(Pow2(n), k);
      AndBit(value, Not(Pow2(n)), k);
    }
  }

  /** `value & 2 ** n` is non-zero exactly when bit `n` is set. */
  lemma MaskTest(value: int, n: nat)
    ensures And(value, Pow2(n)) != 0 <==> TestBit(value, n)
  {
    AndBit(value, Pow2(n), n);
    Pow2Bit(n, n);
    ConstantBits(n);
    if !TestBit(value, n) {
      forall k: nat
        ensures TestBit(And(value, Pow2(n)), k) <==> TestBit(0, k)
      {
        AndBit(value, Pow2(n), k);
        Pow2Bit(n, k);
        ConstantBits(k);
      }
      SameBits(And(value, Pow2(n)), 0);
    }
  }

  /** Writing one flag is updating the map at that name. */
  lemma WriteFlag(value: int, keys: seq<string>, key: string, on: bool)
    requires key in keys
    ensures Flags(WithBit(value, IndexOf(keys, key), on), keys) == Flags(value, keys)[key := on]
  {
    var n := IndexOf(keys, key);
    forall k | k in keys
      ensures TestBit(WithBit(value, n, on), IndexOf(keys, k)) <==> if k == key then on else TestBit(value, IndexOf(keys, k))
    {
      WithBitBits(value, n, on, IndexOf(keys, k));
    }
  }

  // ----- sequences of updates

  datatype Assign = Assign(key: string, on: bool)

  function Written(value: int, keys: seq<string>, updates: seq<Assign>): int {
    if updates == [] then value
    else
      var v, u := Written(value, keys, updates[..|updates| - 1]), updates[|updates| - 1];
      if u.key in keys then WithBit(v, IndexOf(keys, u.key), u.on) else v
  }

  lemma WrittenOnce(value: int, keys: seq<string>, u: Assign)
    ensures Written(value, keys, [u]) == if u.key in keys then WithBit(value, IndexOf(keys, u.key), u.on) else value
  {
    assert [u][..0] == [];
    assert Written(value, keys, [u][..0]) == value;
  }

  // ----- the handler

  class BitHandler {
    var value: int
    const keys: seq<string>

    constructor (value: int, keys: seq<string>)
      ensures this.value == value && this.keys == keys
    {
      this.value, this.keys := value, keys;
    }

    /** `get_bit(n).is_set` */
    method GetBit(n: nat) returns (isSet: bool)
      ensures isSet <==> TestBit(value, n)
    {
      MaskTest(value, n);
      isSet := And(value, Pow2(n)) != 0;
    }

    /** `set_bit`: that bit and no other, on a value of either sign. */
    method SetBit(n: nat, on: bool) returns (isSet: bool)
      modifies this`value
      ensures isSet == on
      ensures forall k: nat :: TestBit(value, k) <==> if k == n then on else TestBit(old(value), k)
      ensures value == WithBit(old(value), n, on)
    {
      var mask := Pow2(n);
      if on {
        value := Or(value, mask);
      } else {
        value := And(value, Not(mask));
      }
      forall k: nat
        ensures TestBit(value, k) <==> if k == n then on else TestBit(old(value), k)
      {
        WithBitBits(old(value), n, on, k);
      }
      MaskTest(value, n);
      isSet := And(value, mask) != 0;
    }

    /** `handler[key] = on` and `handler.key = on`; an unknown name is an AttributeError and changes
        nothing. */
    method SetFlag(key: string, on: bool) returns (ok: bool)
      modifies this`value
      ensures ok <==> key in keys
      ensures Flags(value, keys) == if ok then Flags(old(value), keys)[key := on] else Flags(old(value), keys)
      ensures forall k: nat :: (TestBit(value, k) <==> TestBit(old(value), k)) || (ok && k == IndexOf(keys, key))
      ensures value == Written(old(value), keys, [Assign(key, on)])
    {
      ok := key in keys;
      if ok {
        WriteFlag(value, keys, key, on);
        var _ := SetBit(IndexOf(keys, key), on);
      }
      WrittenOnce(old(value), keys, Assign(key, on));
    }

    /** Any sequence of named assignments. */
    method SetFlags(updates: seq<Assign>)
      modifies this`value
      ensures value == Written(old(value), keys, updates)
    {
      for i := 0 to |updates|
        invariant value == Written(old(value), keys, updates[..i])
      {
        WrittenOnce(value, keys, updates[i]);
        var _ := SetFlag(updates[i].key, updates[i].on);
        assert updates[..i + 1][..i] == updates[..i];
      }
      assert updates[..|updates|] == updates;
    }

    /** `iteritems` */
    method Items() returns (items: seq<(string, bool)>)
      ensures |items| == |keys|
      ensures forall i :: 0 <= i < |items| ==> items[i].0 == keys[i] && items[i].1 == Flags(value, keys)[keys[i]]
    {
      items := [];
      for i := 0 to |keys|
        invariant |items| == i
        invariant forall j :: 0 <= j < i ==> items[j].0 == keys[j] && items[j].1 == Flags(value, keys)[keys[j]]
      {
        var isSet := GetBit(IndexOf(keys, keys[i]));
        items := items + [(keys[i], isSet)];
      }
    }
  }

  // ----- a map from names to booleans

  function UpdatedMap(flags: map<string, bool>, updates: seq<Assign>): map<string, bool> {
    if updates == [] then flags
    else
      var m, u := UpdatedMap(flags, updates[..|updates| - 1]), updates[|updates| - 1];
      if u.key in flags then m[u.key := u.on] else m
  }

  /** The handler refines a map from names to booleans: after any updates, valid or not, on any signed
      integer, the visible flags are the map after the same updates, and bits of no flag are as they
      were. */
  lemma {:induction false} HandlerRefinesMap(value: int, keys: seq<string>, updates: seq<Assign>)
    ensures Flags(Written(value, keys, updates), keys) == UpdatedMap(Flags(value, keys), updates)
    ensures forall n: nat :: n >= |keys| ==> (TestBit(Written(value, keys, updates), n) <==> TestBit(value, n))
  {
    if updates != [] {
      var front, u := updates[..|updates| - 1], updates[|updates| - 1];
      HandlerRefinesMap(value, keys, front);
      if u.key in keys {
        var v := Written(value, keys, front);
        WriteFlag(v, keys, u.key, u.on);
        forall n: nat | n >= |keys|
          ensures TestBit(WithBit(v, IndexOf(keys, u.key), u.on), n) <==> TestBit(value, n)
        {
          WithBitBits(v, IndexOf(keys, u.key), u.on, n);
        }
      }
    }
  }

  // ----- `Bit` operands

  datatype Bit = Bit(number: nat, isSet: bool) {
    /** The mask of an unset bit is the complement of the set one's. */
    function Mask(): int {
      if isSet then Pow2(number) else Not(Pow2(number))
    }

    function Invert(): Bit {
      Bit(number, !isSet)
    }
  }

  /** `value | bit` sets the flag and `value & ~bit` clears it. */
  lemma OperatorsWriteFlags(value: int, n: nat, k: nat)
    ensures TestBit(Or(value, Bit(n, true).Mask()), k) <==> k == n || TestBit(value, k)
    ensures TestBit(And(value, Bit(n, true).Invert().Mask()), k) <==> k != n && TestBit(value, k)
  {
    WithBitBits(value, n, true, k);
    WithBitBits(value, n, false, k);
  }

  // ----- `BitField`

  /** The collection-default branch of `BitField.__init__`; an unknown name is a ValueError. */
  method FoldDefault(flags: seq<string>, default: seq<string>) returns (r: Result<int, string>)
    ensures r.Err? <==> exists f :: f in default && f !in flags
    ensures r.Ok? ==> forall n: nat :: TestBit(r.value, n) <==> n < |flags| && flags[n] in default && IndexOf(flags, flags[n]) == n
  {
    var value := 0;
    forall n: nat ensures !TestBit(0, n) { ConstantBits(n); }
    for i := 0 to |default|
      invariant forall f :: f in default[..i] ==> f in flags
      invariant forall n: nat :: TestBit(value, n) <==> n < |flags| && flags[n] in default[..i] && IndexOf(flags, flags[n]) == n
    {
      var flag := default[i];
      if flag !in flags {
        return Err(flag);
      }
      assert default[..i + 1] == default[..i] + [flag];
      var index := IndexOf(flags, flag);
      forall n: nat
        ensures TestBit(Or(Pow2(index), value), n) <==> n == index || TestBit(value, n)
      {
        OrBit(Pow2(index), value, n);
        Pow2Bit(index, n);
      }
      value := Or(Pow2(index), value);
    }
    assert default[..|default|] == default;
    return Ok(value);
  }

  lemma OneMoreBit(value: int, n: nat)
    ensures Or(value % Pow2(n), And(value, Pow2(n))) == value % Pow2(n + 1)
  {
    var a, b := value % Pow2(n), And(value, Pow2(n));
    forall k: nat
      ensures TestBit(Or(a, b), k) <==> TestBit(value % Pow2(n + 1), k)
    {
      OrBit(a, b, k);
      AndBit(value, Pow2(n), k);
      Pow2Bit(n, k);
      ModBit(value, n, k);
      ModBit(value, n + 1, k);
    }
    SameBits(Or(a, b), value % Pow2(n + 1));
  }

  lemma VisibleFlagsKept(value: int, flags: seq<string>)
    ensures Flags(value % Pow2(|flags|), flags) == Flags(value, flags)
  {
    forall k | k in flags
      ensures TestBit(value % Pow2(|flags|), IndexOf(flags, k)) <==> TestBit(value, IndexOf(flags, k))
    {
      ModBit(value, |flags|, IndexOf(flags, k));
    }
  }

  lemma {:induction false} Pow2Grows(a: nat, b: nat)
    requires a <= b
    ensures Pow2(a) <= Pow2(b)
  {
    if a < b {
      Pow2Grows(a, b - 1);
    }
  }

  lemma {:induction false} Pow2Adds(a: nat, b: nat)
    ensures Pow2(a + b) == Pow2(a) * Pow2(b)
  {
    if b > 0 {
      Pow2Adds(a, b - 1);
      assert Pow2(a) * (2 * Pow2(b - 1)) == 2 * (Pow2(a) * Pow2(b - 1));
    }
  }

  lemma Pow2Of63()
    ensures Pow2(MAX_FLAG_COUNT) == 0x8000_0000_0000_0000
  {
    assert Pow2(7) == 128;
    Pow2Adds(7, 7);
    Pow2Adds(14, 14);
    Pow2Adds(28, 28);
    Pow2Adds(56, 7);
  }

  /** `BitField.to_python` on an integer: a negative one is replaced by its visible bits. */
  method ToPython(value: int, flags: seq<string>) returns (r: int)
    ensures value >= 0 ==> r == value
    ensures value < 0 ==> r == value % Pow2(|flags|)
    ensures Flags(r, flags) == Flags(value, flags)
    ensures |flags| <= MAX_FLAG_COUNT && value < 0 ==> 0 <= r < 0x8000_0000_0000_0000
  {
    r := value;
    if value < 0 {
      var new_value := 0;
      assert value % Pow2(0) == 0;
      for bit_number := 0 to |flags|
        invariant new_value == value % Pow2(bit_number)
      {
        OneMoreBit(value, bit_number);
        new_value := Or(new_value, And(value, Pow2(bit_number)));
      }
      r := new_value;
      VisibleFlagsKept(value, flags);
      if |flags| <= MAX_FLAG_COUNT {
        Pow2Grows(|flags|, MAX_FLAG_COUNT);
        Pow2Of63();
      }
    }
  }
}
