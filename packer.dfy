/**
 * The "p,a,c,k,e,r" dictionary of `unpack_packed`: slot `i` of the payload is
 * reached through the key `encode(i, a)`, and the script body is rebuilt by
 * replacing every word that is a key by that slot's value.
 */
module Packer {
  import opened Numerals
  import opened Chars
  import opened Words

  /**
   * `((r as u8) + 29) as char`: the cast keeps the low eight bits and the
   * addition wraps around in a release build. For 36 <= r < 62 this is 'A'..'Z'.
   */
  function ExtendedSymbol(r: nat): (ch: char)
    ensures 36 <= r < 62 ==> ch == DigitChar(r)
  {
    ((r % 256 + 29) % 256) as char
  }

  /** `encode` can be evaluated: radix 0 divides by zero and radix 1 recurses forever past slot 0. */
  predicate Encodable(a: nat, i: nat) {
    a >= 2 || i < a
  }

  /** Every slot below `c` can be encoded: radix 1 still keys slot 0, and radix 0 has no slot to key. */
  predicate SlotsEncodable(a: nat, c: nat) {
    a >= 2 || c <= a
  }

  /**
   * `encode(inner, a)`: a single symbol below the radix, otherwise the key of
   * `inner / a` followed by the symbol of `inner % a`. Symbols up to 35 come
   * from the base-36 numeral, larger ones from ExtendedSymbol.
   */
  function Encode(i: nat, a: nat): (key: string)
    requires Encodable(a, i)
    ensures |key| >= 1
    ensures i < a ==> |key| == 1
    decreases i
  {
    DivMod(i, if a >= 2 then a else 2);
    if i < a then
      if i > 35 then [ExtendedSymbol(i % a)] else Numeral(i, 36)
    else
      var ch := if i % a > 35 then ExtendedSymbol(i % a) else Numeral(i % a, 36)[0];
      Encode(i / a, a) + [ch]
  }

  /**
   * Within the 62-symbol alphabet, the key of slot `i` is the ordinary base-`a`
   * numeral of `i`; so it reads back as `i`, and it is one symbol long exactly
   * when `i < a`.
   */
  lemma {:induction false} EncodeIsNumeral(i: nat, a: nat)
    requires 2 <= a <= 62
    ensures Encode(i, a) == Numeral(i, a)
    ensures ValueOf(Encode(i, a), a) == i
    ensures |Encode(i, a)| == 1 <==> i < a
    decreases i
  {
    DivMod(i, a);
    if i < a {
      assert Numeral(i, a) == [DigitChar(i)];
      if i <= 35 {
        assert Numeral(i, 36) == [DigitChar(i)];
      }
    } else {
      EncodeIsNumeral(i / a, a);
      var r := i % a;
      if r <= 35 {
        assert Numeral(r, 36) == [DigitChar(r)];
      }
    }
    NumeralValue(i, a);
    NumeralSingleSymbol(i, a);
  }

  /** Within the 62-symbol alphabet, distinct slots never share a key. */
  lemma EncodeInjective(i: nat, j: nat, a: nat)
    requires 2 <= a <= 62
    ensures Encode(i, a) == Encode(j, a) ==> i == j
  {
    EncodeIsNumeral(i, a);
    EncodeIsNumeral(j, a);
  }

  /**
   * There is no radix check: past 62 the symbols leave the alphabet and wrap
   * around, so distinct slots can share a key, and a key need not be a word
   * (slot 62 under radix 63 is "[", which the word scan never matches).
   */
  lemma WideRadixKeys()
    ensures Encode(36, 300) == Encode(292, 300) == "A"
    ensures Encode(62, 63) == "["
  {
  }

  /** An empty payload entry stands for the key itself. */
  function EntryValue(key: string, entry: string): string {
    if entry == [] then key else entry
  }

  /**
   * The dictionary over slots [lo, hi), where the smallest slot with a given
   * key decides that key's value (reference definition, built upwards).
   */
  function Window(a: nat, lo: nat, hi: nat, data: seq<string>): map<string, string>
    requires lo <= hi <= |data| && SlotsEncodable(a, hi)
    decreases hi - lo
  {
    if hi == lo then map[]
    else
      var d := Window(a, lo, hi - 1, data);
      var key := Encode(hi - 1, a);
      if key in d then d else d[key := EntryValue(key, data[hi - 1])]
  }

  /** The dictionary that slots 0..c-1 of `data` define under radix `a`. */
  function Dictionary(a: nat, c: nat, data: seq<string>): map<string, string>
    requires c <= |data| && SlotsEncodable(a, c)
  {
    Window(a, 0, c, data)
  }

  /** Inserting a smaller slot last overrides whatever the larger slots put under its key. */
  lemma {:induction false} WindowPrepend(a: nat, lo: nat, hi: nat, data: seq<string>)
    requires lo < hi <= |data| && SlotsEncodable(a, hi)
    ensures Window(a, lo, hi, data) == Window(a, lo + 1, hi, data)[Encode(lo, a) := EntryValue(Encode(lo, a), data[lo])]
    decreases hi - lo
  {
    if hi > lo + 1 {
      WindowPrepend(a, lo, hi - 1, data);
      var k0 := Encode(lo, a);
      var v0 := EntryValue(k0, data[lo]);
      var kh := Encode(hi - 1, a);
      var vh := EntryValue(kh, data[hi - 1]);
      var inner := Window(a, lo + 1, hi - 1, data);
      assert Window(a, lo, hi - 1, data) == inner[k0 := v0];
      if kh in inner {
        assert Window(a, lo + 1, hi, data) == inner;
        assert Window(a, lo, hi, data) == inner[k0 := v0];
      } else if kh == k0 {
        assert Window(a, lo, hi, data) == inner[k0 := v0];
        assert inner[kh := vh][k0 := v0] == inner[k0 := v0];
      } else {
        assert Window(a, lo, hi, data) == inner[k0 := v0][kh := vh];
        assert inner[kh := vh][k0 := v0] == inner[k0 := v0][kh := vh];
      }
    }
  }

  /** The keys of slots 0..c-1. */
  function SlotKeys(a: nat, c: nat): set<string>
    requires SlotsEncodable(a, c)
  {
    set i | 0 <= i < c :: Encode(i, a)
  }

  /** The keys of slots 0..c-1 are those of slots 0..c-2 and the key of slot c-1. */
  lemma SlotKeysStep(a: nat, c: nat)
    requires c > 0 && SlotsEncodable(a, c)
    ensures SlotKeys(a, c) == SlotKeys(a, c - 1) + {Encode(c - 1, a)}
  {
    forall i | 0 <= i < c
      ensures Encode(i, a) in SlotKeys(a, c - 1) + {Encode(c - 1, a)}
    {
      if i < c - 1 {
        assert Encode(i, a) in SlotKeys(a, c - 1);
      }
    }
  }

  /** Adding slot c-1 adds its key to the dictionary's keys. */
  lemma DictionaryStep(a: nat, c: nat, data: seq<string>)
    requires 0 < c <= |data| && SlotsEncodable(a, c)
    ensures Dictionary(a, c, data).Keys == Dictionary(a, c - 1, data).Keys + {Encode(c - 1, a)}
  {
  }

  /** The keys of the dictionary are exactly the keys of slots 0..c-1. */
  lemma {:induction false} DictionaryKeys(a: nat, c: nat, data: seq<string>)
    requires c <= |data| && SlotsEncodable(a, c)
    ensures Dictionary(a, c, data).Keys == SlotKeys(a, c)
    decreases c
  {
    if c > 0 {
      DictionaryKeys(a, c - 1, data);
      DictionaryStep(a, c, data);
      SlotKeysStep(a, c);
    }
  }

  /** Slot `i` is the first slot with its key. */
  predicate FirstWithKey(a: nat, i: nat)
    requires Encodable(a, i)
  {
    forall j :: 0 <= j < i ==> Encode(j, a) != Encode(i, a)
  }

  /** When keys collide, the smallest slot's value is the one kept. */
  lemma {:induction false} DictionaryFirstWins(a: nat, c: nat, data: seq<string>, i: nat)
    requires c <= |data| && SlotsEncodable(a, c) && i < c
    requires FirstWithKey(a, i)
    ensures Encode(i, a) in Dictionary(a, c, data)
    ensures Dictionary(a, c, data)[Encode(i, a)] == EntryValue(Encode(i, a), data[i])
    decreases c
  {
    if i < c - 1 {
      DictionaryFirstWins(a, c - 1, data, i);
    } else {
      DictionaryKeys(a, c - 1, data);
    }
  }

  /**
   * Within the 62-symbol alphabet no keys collide: every slot's key maps to
   * that slot's value (or to itself when the slot is empty).
   */
  lemma DictionaryExact(a: nat, c: nat, data: seq<string>, i: nat)
    requires 2 <= a <= 62 && c <= |data| && i < c
    ensures Encode(i, a) in Dictionary(a, c, data)
    ensures Dictionary(a, c, data)[Encode(i, a)] == EntryValue(Encode(i, a), data[i])
  {
    forall j | 0 <= j < i
      ensures Encode(j, a) != Encode(i, a)
    {
      EncodeInjective(i, j, a);
    }
    DictionaryFirstWins(a, c, data, i);
  }

  /** Within the 62-symbol alphabet the key of slot c-1 is new to the dictionary of the slots before it. */
  lemma FreshKey(a: nat, c: nat, data: seq<string>)
    requires 2 <= a <= 62 && 0 < c <= |data|
    ensures Encode(c - 1, a) !in Dictionary(a, c - 1, data)
  {
    DictionaryKeys(a, c - 1, data);
    if Encode(c - 1, a) in SlotKeys(a, c - 1) {
      var j :| 0 <= j < c - 1 && Encode(j, a) == Encode(c - 1, a);
      EncodeInjective(j, c - 1, a);
    }
  }

  /** Within the 62-symbol alphabet the dictionary has one entry per slot. */
  lemma {:induction false} DictionarySize(a: nat, c: nat, data: seq<string>)
    requires 2 <= a <= 62 && c <= |data|
    ensures |Dictionary(a, c, data)| == c
    decreases c
  {
    if c > 0 {
      DictionarySize(a, c - 1, data);
      FreshKey(a, c, data);
      var d := Dictionary(a, c - 1, data);
      var key := Encode(c - 1, a);
      assert Dictionary(a, c, data) == d[key := EntryValue(key, data[c - 1])];
    }
  }

  /** The smallest radices the loop accepts: radix 1 with one slot, and radix 0 with none. */
  lemma SmallRadix()
    ensures Encode(0, 1) == "0"
    ensures Dictionary(1, 1, [""]) == map["0" := "0"]
    ensures Dictionary(1, 1, ["x"]) == map["0" := "x"]
    ensures Dictionary(0, 0, []) == map[]
  {
    assert Numeral(0, 36) == "0";
  }

  /**
   * The dictionary loop of `unpack_packed`: slots are inserted from c-1 down
   * to 0, so the smallest slot is written last. `data[i]` is out of bounds
   * (a panic) unless c <= |data|.
   */
  method BuildDictionary(a: nat, c: nat, data: seq<string>) returns (dmap: map<string, string>)
    requires c <= |data| && SlotsEncodable(a, c)
    ensures dmap == Dictionary(a, c, data)
  {
    dmap := map[];
    for i := c downto 0
      invariant dmap == Window(a, i, c, data)
    {
      var key := Encode(i, a);
      var val := if data[i] == [] then key else data[i];
      WindowPrepend(a, i, c, data);
      dmap := dmap[key := val];
    }
  }

  /**
   * `unpack_packed` up to the rebuilt script: build the dictionary, then
   * replace the word runs of the frame.
   */
  method UnpackScript(frame: string, a: nat, c: nat, data: seq<string>) returns (js: string)
    requires c <= |data| && SlotsEncodable(a, c)
    ensures js == Substitute(Dictionary(a, c, data), frame)
  {
    var dmap := BuildDictionary(a, c, data);
    js := Substitute(dmap, frame);
  }

  /** Within the 62-symbol alphabet, the key of slot `i` standing alone unpacks to that slot's value. */
  lemma UnpackKey(a: nat, c: nat, data: seq<string>, i: nat)
    requires 2 <= a <= 62 && c <= |data| && i < c
    ensures Substitute(Dictionary(a, c, data), Encode(i, a)) == EntryValue(Encode(i, a), data[i])
  {
    var key := Encode(i, a);
    EncodeIsNumeral(i, a);
    assert forall k :: 0 <= k < |key| ==> IsWordChar(key[k]);
    SubstituteWord(Dictionary(a, c, data), key);
    DictionaryExact(a, c, data, i);
  }
}
