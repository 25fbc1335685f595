/** Schema fields: bit ranges of 16-bit words held as binary strings, written into and read out of a word
    list according to a message type's layout. */
module SchemaFields {
  import opened Binary
  import opened PythonInts
  import opened Text
  import opened Wrappers

  datatype FieldDef = FieldDef(field: string, wordIndex: int, bits: string)

  // ---------------------------------------------------------------- bit ranges

  datatype Range = Range(low: nat, high: nat)

  function ExtractBitRange(bits: string): (r: Result<Range>)
    ensures r.Ok? ==> r.value.low <= r.value.high <= 15
  {
    if bits == "all" then Ok(Range(0, 15))
    else
      var parts := Split(bits, '-');
      if |parts| != 2 || !AllDigits(parts[0]) || !AllDigits(parts[1]) then ValueError
      else
        var start, end := Decimal(parts[0]), Decimal(parts[1]);
        if end > 15 || start > end then ValueError else Ok(Range(start, end))
  }

  /** A range written as one number, such as "0", is refused. */
  lemma SingleBitRefused(bits: string)
    requires '-' !in bits && bits != "all"
    ensures ExtractBitRange(bits) == ValueError
  {
    SplitNothing(bits, '-');
  }

  lemma DigitsHaveNoDash(n: nat)
    ensures Split(Show(n), '-') == [Show(n)]
  {
    SplitNothing(Show(n), '-');
  }

  lemma NumbersAreNotAll(s: string)
    requires s != "" && '0' <= s[0] <= '9'
    ensures s != "all"
  {
  }

  /** The text "a-b" names the bits from a to b, counted from the lowest, when they lie in a word, and nothing
      otherwise; "all" names the whole word. */
  lemma RangeNamed(a: nat, b: nat)
    ensures ExtractBitRange(Show(a) + "-" + Show(b)) == if a <= b <= 15 then Ok(Range(a, b)) else ValueError
    ensures ExtractBitRange("all") == Ok(Range(0, 15))
  {
    hide Show, Split, Decimal;
    var bits := Show(a) + "-" + Show(b);
    NumbersAreNotAll(bits);
    SplitAround(Show(a), Show(b), '-');
    DigitsHaveNoDash(a);
    DigitsHaveNoDash(b);
    assert Split(bits, '-') == [Show(a), Show(b)];
    DecimalShow(a);
    DecimalShow(b);
  }

  // ---------------------------------------------------------------- reading and writing a range

  /** The ones at positions low..high. */
  function RangeMask(low: nat, high: int): (mask: int)
    requires high >= low - 1
    decreases high - low + 1
  {
    if high < low then 0 else Or(RangeMask(low, high - 1), Shl(1, high))
  }

  /** All ones but those at positions low..high. */
  function HoleMask(low: nat, high: int): (mask: int)
    requires high >= low - 1
    decreases high - low + 1
  {
    if high < low then Not(0) else And(HoleMask(low, high - 1), Not(Shl(1, high)))
  }

  function ReadRange(value: int, r: Range): (v: int)
    requires r.low <= r.high
  {
    Shr(And(value, RangeMask(r.low, r.high)), r.low)
  }

  function WriteRange(value: int, v: int, r: Range): (w: int)
    requires r.low <= r.high
  {
    Or(And(value, HoleMask(r.low, r.high)), Shl(v, r.low))
  }

  method ExtractBits(value: int, low: nat, high: nat) returns (result: int)
    requires low <= high
    ensures result == ReadRange(value, Range(low, high))
  {
    var mask := 0;
    for bit := low to high + 1
      invariant mask == RangeMask(low, bit - 1)
    {
      mask := Or(mask, Shl(1, bit));
    }
    result := Shr(And(value, mask), low);
  }

  method SetBits(value: int, newBits: int, low: nat, high: nat) returns (result: Result<int>)
    requires low <= high
    ensures result == if newBits > Pow2(high - low + 1) - 1 then ValueError
                      else Ok(WriteRange(value, newBits, Range(low, high)))
  {
    var mask := Not(0);
    for bit := low to high + 1
      invariant mask == HoleMask(low, bit - 1)
    {
      mask := And(mask, Not(Shl(1, bit)));
    }
    var cleared := And(value, mask);
    var shifted := Shl(newBits, low);
    if newBits > Shl(1, high - low + 1) - 1 {
      return ValueError;
    }
    return Ok(Or(cleared, shifted));
  }

  lemma {:induction false} BitOneShifted(k: nat, i: nat)
    ensures Bit(Shl(1, k), i) <==> i == k
  {
    BitPow2(k, i);
  }

  lemma {:induction false} BitRangeMask(low: nat, high: int, i: nat)
    requires high >= low - 1
    ensures Bit(RangeMask(low, high), i) <==> low <= i <= high
    decreases high - low + 1
  {
    if high < low {
      BitConst(i);
    } else {
      BitRangeMask(low, high - 1, i);
      BitOneShifted(high, i);
      BitOr(RangeMask(low, high - 1), Shl(1, high), i);
    }
  }

  lemma {:induction false} BitHoleMask(low: nat, high: int, i: nat)
    requires high >= low - 1
    ensures Bit(HoleMask(low, high), i) <==> !(low <= i <= high)
    decreases high - low + 1
  {
    if high < low {
      BitConst(i);
    } else {
      BitHoleMask(low, high - 1, i);
      BitOneShifted(high, i);
      BitNot(Shl(1, high), i);
      BitAnd(HoleMask(low, high - 1), Not(Shl(1, high)), i);
    }
  }

  /** What is read is the range's bits, moved down. */
  lemma BitsRead(value: int, r: Range, i: nat)
    requires r.low <= r.high
    ensures Bit(ReadRange(value, r), i) <==> i + r.low <= r.high && Bit(value, i + r.low)
  {
    var mask := RangeMask(r.low, r.high);
    BitRangeMask(r.low, r.high, i + r.low);
    BitAnd(value, mask, i + r.low);
    BitShr(And(value, mask), r.low, i);
  }

  /** Writing a value that fits replaces the range's bits and no others. */
  lemma BitsWritten(value: int, v: int, r: Range, i: nat)
    requires r.low <= r.high && 0 <= v < Pow2(r.high - r.low + 1)
    ensures Bit(WriteRange(value, v, r), i) <==> if r.low <= i <= r.high then Bit(v, i - r.low) else Bit(value, i)
  {
    BitHoleMask(r.low, r.high, i);
    BitAnd(value, HoleMask(r.low, r.high), i);
    BitShl(v, r.low, i);
    BitOr(And(value, HoleMask(r.low, r.high)), Shl(v, r.low), i);
    if i > r.high {
      NoHighBits(v, r.high - r.low + 1, i - r.low);
    }
  }

  /** Reading back the range just written gives the value. */
  lemma ReadWritten(value: int, v: int, r: Range)
    requires r.low <= r.high && 0 <= v < Pow2(r.high - r.low + 1)
    ensures ReadRange(WriteRange(value, v, r), r) == v
  {
    var w := WriteRange(value, v, r);
    forall i: nat ensures Bit(ReadRange(w, r), i) == Bit(v, i) {
      BitsRead(w, r, i);
      BitsWritten(value, v, r, i + r.low);
      if i + r.low > r.high {
        NoHighBits(v, r.high - r.low + 1, i);
      }
    }
    SameBits(ReadRange(w, r), v);
  }

  /** Reading a range disjoint from the one written gives what was there before. */
  lemma ReadOther(value: int, v: int, r: Range, other: Range)
    requires r.low <= r.high && 0 <= v < Pow2(r.high - r.low + 1)
    requires other.low <= other.high && (other.high < r.low || r.high < other.low)
    ensures ReadRange(WriteRange(value, v, r), other) == ReadRange(value, other)
  {
    var w := WriteRange(value, v, r);
    forall i: nat ensures Bit(ReadRange(w, other), i) == Bit(ReadRange(value, other), i) {
      BitsRead(w, other, i);
      BitsRead(value, other, i);
      BitsWritten(value, v, r, i + other.low);
    }
    SameBits(ReadRange(w, other), ReadRange(value, other));
  }

  lemma WrittenIsNat(value: int, v: int, r: Range)
    requires r.low <= r.high && 0 <= v < Pow2(r.high - r.low + 1) && value >= 0
    ensures WriteRange(value, v, r) >= 0
  {
    var k := value + r.high + 1;
    var w := WriteRange(value, v, r);
    BelowPow2(value);
    Pow2Grows(value, k);
    forall i: nat | i >= k ensures !Bit(w, i) {
      BitsWritten(value, v, r, i);
      NoHighBits(value, k, i);
    }
    HighBitsBound(w, k);
  }

  lemma {:induction false} BelowPow2(n: nat)
    ensures n < Pow2(n)
  {
    if n > 0 {
      BelowPow2(n - 1);
    }
  }

  lemma {:induction false} ReadIsNat(value: int, r: Range)
    requires r.low <= r.high
    ensures 0 <= ReadRange(value, r) < Pow2(r.high - r.low + 1)
  {
    forall i: nat | i >= r.high - r.low + 1 ensures !Bit(ReadRange(value, r), i) {
      BitsRead(value, r, i);
    }
    HighBitsBound(ReadRange(value, r), r.high - r.low + 1);
  }

  // ---------------------------------------------------------------- applying and extracting a layout

  /** The word index as a list position; negative indices count from the end. */
  function Resolve(def: FieldDef, length: nat): (index: int)
  {
    if def.wordIndex >= 0 then def.wordIndex else length + def.wordIndex
  }

  predicate InRange(def: FieldDef, length: nat) {
    0 <= Resolve(def, length) < length
  }

  function ParseWord(word: string): (r: Result<nat>)
  {
    if word != "" && AllBits(word) then Ok(Parse(word)) else ValueError
  }

  /** The first definition of a field, as the schema lookup finds it. */
  function FieldPosition(schema: seq<FieldDef>, field: string): (r: Option<FieldDef>)
    ensures r.Some? ==> r.value in schema && r.value.field == field
  {
    if schema == [] then None
    else if schema[0].field == field then Some(schema[0])
    else FieldPosition(schema[1..], field)
  }

  /** The word once v has been written into a range, refused when v does not fit. */
  function Written(word: nat, v: nat, range: Range): (r: Result<nat>)
    requires range.low <= range.high
  {
    if v > Pow2(range.high - range.low + 1) - 1 then ValueError
    else
      WrittenIsNat(word, v, range);
      Ok(WriteRange(word, v, range))
  }

  function PutField(words: seq<string>, def: FieldDef, v: nat): (r: Result<seq<string>>)
    ensures r.Ok? ==> |r.value| == |words|
  {
    if !InRange(def, |words|) then Ok(words)
    else
      var index := Resolve(def, |words|);
      var range :- ExtractBitRange(def.bits);
      var word :- ParseWord(words[index]);
      var written :- Written(word, v, range);
      Ok(words[index := Format(written, 16)])
  }

  type FieldValue = (string, nat)

  /** The field map is a dictionary: its entries in insertion order, one per name. */
  function ApplySchema(schema: seq<FieldDef>, words: seq<string>, values: seq<FieldValue>): (r: Result<seq<string>>)
    ensures r.Ok? ==> |r.value| == |words|
  {
    if values == [] then Ok(words)
    else
      var front :- ApplySchema(schema, words, values[..|values| - 1]);
      var (field, v) := values[|values| - 1];
      var def := FieldPosition(schema, field);
      if def.None? then Ok(front) else PutField(front, def.value, v)
  }

  /** The body of the field loop once the field's definition is known. */
  method WriteField(words: seq<string>, def: FieldDef, v: nat) returns (r: Result<seq<string>>)
    ensures r == PutField(words, def, v)
  {
    hide ExtractBitRange, ParseWord, WriteRange, Format, Pow2;
    var index := if def.wordIndex >= 0 then def.wordIndex else |words| + def.wordIndex;
    if index < 0 || |words| <= index {
      return Ok(words);
    }
    var range := ExtractBitRange(def.bits);
    if range.ValueError? {
      return ValueError;
    }
    var word := ParseWord(words[index]);
    if word.ValueError? {
      return ValueError;
    }
    var updated := SetBits(word.value, v, range.value.low, range.value.high);
    if updated.ValueError? {
      return ValueError;
    }
    WrittenIsNat(word.value, v, range.value);
    return Ok(words[index := Format(updated.value, 16)]);
  }

  method ApplySchemaToDataWords(schema: seq<FieldDef>, words: seq<string>, values: seq<FieldValue>) returns (r: Result<seq<string>>)
    ensures r == ApplySchema(schema, words, values)
  {
    hide PutField, FieldPosition;
    r := Ok(words);
    for i := 0 to |values|
      invariant r.Ok? && r == ApplySchema(schema, words, values[..i])
    {
      assert values[..i + 1][..i] == values[..i];
      AppliedFailureStays(schema, words, values, i + 1);
      var (field, v) := values[i];
      var def := FieldPosition(schema, field);
      if def.Some? {
        r := WriteField(r.value, def.value, v);
        if r.ValueError? {
          return ValueError;
        }
      }
    }
    assert values[..|values|] == values;
  }

  lemma {:induction false} AppliedFailureStays(schema: seq<FieldDef>, words: seq<string>, values: seq<FieldValue>, k: nat)
    requires k <= |values|
    ensures ApplySchema(schema, words, values[..k]).ValueError? ==> ApplySchema(schema, words, values).ValueError?
    decreases |values| - k
  {
    hide PutField, FieldPosition;
    if k < |values| {
      assert values[..k + 1][..k] == values[..k];
      AppliedFailureStays(schema, words, values, k + 1);
    } else {
      assert values[..k] == values;
    }
  }

  function GetField(words: seq<string>, def: FieldDef): (r: Result<nat>)
    requires InRange(def, |words|)
  {
    var range :- ExtractBitRange(def.bits);
    var word :- ParseWord(words[Resolve(def, |words|)]);
    assert ReadRange(word, range) >= 0 by { ReadIsNat(word, range); }
    Ok(ReadRange(word, range))
  }

  function ExtractFields(schema: seq<FieldDef>, words: seq<string>): (r: Result<map<string, nat>>)
  {
    if schema == [] then Ok(map[])
    else
      var front :- ExtractFields(schema[..|schema| - 1], words);
      var def := schema[|schema| - 1];
      if !InRange(def, |words|) then Ok(front)
      else
        var v :- GetField(words, def);
        Ok(front[def.field := v])
  }

  method ReadField(words: seq<string>, def: FieldDef) returns (r: Result<nat>)
    requires InRange(def, |words|)
    ensures r == GetField(words, def)
  {
    hide ExtractBitRange, ParseWord, ReadRange;
    var index := if def.wordIndex >= 0 then def.wordIndex else |words| + def.wordIndex;
    var range := ExtractBitRange(def.bits);
    if range.ValueError? {
      return ValueError;
    }
    var word := ParseWord(words[index]);
    if word.ValueError? {
      return ValueError;
    }
    var v := ExtractBits(word.value, range.value.low, range.value.high);
    ReadIsNat(word.value, range.value);
    return Ok(v);
  }

  method ExtractFieldsFromDataWords(schema: seq<FieldDef>, words: seq<string>) returns (r: Result<map<string, nat>>)
    ensures r == ExtractFields(schema, words)
  {
    hide GetField, InRange;
    r := Ok(map[]);
    for i := 0 to |schema|
      invariant r.Ok? && r == ExtractFields(schema[..i], words)
    {
      assert schema[..i + 1][..i] == schema[..i];
      ExtractFailureStays(schema, words, i + 1);
      var def := schema[i];
      if InRange(def, |words|) {
        var v := ReadField(words, def);
        if v.ValueError? {
          return ValueError;
        }
        r := Ok(r.value[def.field := v.value]);
      }
    }
    assert schema[..|schema|] == schema;
  }

  lemma {:induction false} ExtractFailureStays(schema: seq<FieldDef>, words: seq<string>, k: nat)
    requires k <= |schema|
    ensures ExtractFields(schema[..k], words).ValueError? ==> ExtractFields(schema, words).ValueError?
    decreases |schema| - k
  {
    hide GetField, InRange;
    if k < |schema| {
      assert schema[..k + 1][..k] == schema[..k];
      ExtractFailureStays(schema, words, k + 1);
    } else {
      assert schema[..k] == schema;
    }
  }

  // ---------------------------------------------------------------- round trip

  predicate BinaryWords(words: seq<string>) {
    forall i :: 0 <= i < |words| ==> words[i] != "" && AllBits(words[i])
  }

  /** Two resolved fields share no bit of a list of this length. */
  predicate Disjoint(a: FieldDef, b: FieldDef, length: nat) {
    InRange(a, length) && InRange(b, length) && ExtractBitRange(a.bits).Ok? && ExtractBitRange(b.bits).Ok?
    ==>
      || Resolve(a, length) != Resolve(b, length)
      || ExtractBitRange(a.bits).value.high < ExtractBitRange(b.bits).value.low
      || ExtractBitRange(b.bits).value.high < ExtractBitRange(a.bits).value.low
  }

  /** A layout whose fields have different names, readable ranges and, where they resolve, disjoint bits. */
  predicate GoodLayout(schema: seq<FieldDef>, length: nat) {
    && (forall i :: 0 <= i < |schema| && InRange(schema[i], length) ==> ExtractBitRange(schema[i].bits).Ok?)
    && (forall i, j :: 0 <= i < j < |schema| ==> schema[i].field != schema[j].field && Disjoint(schema[i], schema[j], length))
  }

  predicate Fits(def: FieldDef, v: nat) {
    var range := ExtractBitRange(def.bits);
    range.Ok? ==> v < Pow2(range.value.high - range.value.low + 1)
  }

  /** Every value that will be written fits its field. */
  predicate ValuesFit(schema: seq<FieldDef>, length: nat, values: seq<FieldValue>) {
    forall k :: 0 <= k < |values| ==>
      var def := FieldPosition(schema, values[k].0);
      def.Some? && InRange(def.value, length) ==> Fits(def.value, values[k].1)
  }

  predicate DistinctKeys(values: seq<FieldValue>) {
    forall i, j :: 0 <= i < j < |values| ==> values[i].0 != values[j].0
  }

  /** The value the map assigns to a field, if any. */
  function Assigned(values: seq<FieldValue>, field: string): (v: Option<nat>)
  {
    if values == [] then None
    else if values[|values| - 1].0 == field then Some(values[|values| - 1].1)
    else Assigned(values[..|values| - 1], field)
  }

  lemma PutThenGet(words: seq<string>, def: FieldDef, v: nat, other: FieldDef)
    requires BinaryWords(words) && InRange(def, |words|) && InRange(other, |words|)
    requires ExtractBitRange(def.bits).Ok? && ExtractBitRange(other.bits).Ok? && Fits(def, v)
    requires other == def || Disjoint(def, other, |words|)
    ensures var r := PutField(words, def, v);
            && r.Ok? && BinaryWords(r.value)
            && GetField(r.value, other) == if other == def then Ok(v) else GetField(words, other)
  {
    hide ExtractBitRange, ReadRange, WriteRange, Pow2, Resolve, Bit;
    var index, range := Resolve(def, |words|), ExtractBitRange(def.bits).value;
    var word := Parse(words[index]);
    WrittenIsNat(word, v, range);
    var updated := WriteRange(word, v, range);
    ParseFormat(updated, 16);
    if other == def {
      ReadWritten(word, v, range);
    } else if Resolve(other, |words|) == index {
      ReadOther(word, v, range, ExtractBitRange(other.bits).value);
    }
  }

  lemma PutNowhere(words: seq<string>, def: FieldDef, v: nat)
    requires !InRange(def, |words|)
    ensures PutField(words, def, v) == Ok(words)
  {
  }

  lemma {:induction false} PositionOf(schema: seq<FieldDef>, k: nat)
    requires k < |schema| && forall i, j :: 0 <= i < j < |schema| ==> schema[i].field != schema[j].field
    ensures FieldPosition(schema, schema[k].field) == Some(schema[k])
  {
    if k > 0 {
      assert schema[0].field != schema[k].field;
      PositionOf(schema[1..], k - 1);
    }
  }

  lemma OthersDisjoint(schema: seq<FieldDef>, length: nat, a: FieldDef, b: FieldDef)
    requires GoodLayout(schema, length) && a in schema && b in schema && a != b
    ensures Disjoint(a, b, length) && a.field != b.field
  {
    var i :| 0 <= i < |schema| && schema[i] == a;
    var j :| 0 <= j < |schema| && schema[j] == b;
    if i < j {
      assert Disjoint(schema[i], schema[j], length);
    } else {
      assert Disjoint(schema[j], schema[i], length);
    }
  }

  /** Applying any fitting field map, in whatever order it lists its fields, succeeds; every field then
      reads as its assigned value, or as before when it has none. */
  lemma {:induction false} ApplyThenGet(schema: seq<FieldDef>, words: seq<string>, values: seq<FieldValue>, def: FieldDef)
    requires BinaryWords(words) && GoodLayout(schema, |words|)
    requires ValuesFit(schema, |words|, values) && DistinctKeys(values)
    requires def in schema && InRange(def, |words|)
    ensures var r := ApplySchema(schema, words, values);
            && r.Ok? && BinaryWords(r.value)
            && GetField(r.value, def)
               == if Assigned(values, def.field).Some? then Ok(Assigned(values, def.field).value) else GetField(words, def)
  {
    hide PutField, GetField, Disjoint, ExtractBitRange;
    if values != [] {
      var n := |values| - 1;
      var front := values[..n];
      var (field, v) := values[n];
      assert forall k :: 0 <= k < n ==> front[k] == values[k];
      ApplyThenGet(schema, words, front, def);
      var mid := ApplySchema(schema, words, front).value;
      var position := FieldPosition(schema, field);
      var k :| 0 <= k < |schema| && schema[k] == def;
      PositionOf(schema, k);
      if position.Some? && InRange(position.value, |words|) {
        if position.value != def {
          OthersDisjoint(schema, |words|, position.value, def);
        }
        assert Fits(position.value, v);
        PutThenGet(mid, position.value, v, def);
      } else if position.Some? {
        PutNowhere(mid, position.value, v);
      }
    }
  }

  lemma {:induction false} Extracted(schema: seq<FieldDef>, words: seq<string>)
    requires forall i :: 0 <= i < |schema| && InRange(schema[i], |words|) ==> GetField(words, schema[i]).Ok?
    requires forall i, j :: 0 <= i < j < |schema| ==> schema[i].field != schema[j].field
    ensures var r := ExtractFields(schema, words);
            && r.Ok?
            && forall i :: 0 <= i < |schema| && InRange(schema[i], |words|) ==>
                 schema[i].field in r.value && Ok(r.value[schema[i].field]) == GetField(words, schema[i])
  {
    hide GetField, InRange;
    if schema != [] {
      var n := |schema| - 1;
      var front := schema[..n];
      assert forall i :: 0 <= i < n ==> front[i] == schema[i];
      Extracted(front, words);
    }
  }

  lemma ReadableIff(words: seq<string>, def: FieldDef)
    requires BinaryWords(words) && InRange(def, |words|)
    ensures GetField(words, def).Ok? <==> ExtractBitRange(def.bits).Ok?
  {
    hide ExtractBitRange;
  }

  /** Extraction succeeds exactly when every field that falls inside the list has a readable range; one
      single-bit field such as "0" inside it makes the whole extraction fail. */
  lemma {:induction false} ExtractionSucceedsIff(schema: seq<FieldDef>, words: seq<string>)
    requires BinaryWords(words)
    ensures ExtractFields(schema, words).Ok?
       <==> forall i :: 0 <= i < |schema| && InRange(schema[i], |words|) ==> ExtractBitRange(schema[i].bits).Ok?
  {
    hide ExtractBitRange, GetField, InRange;
    if schema != [] {
      var n := |schema| - 1;
      assert schema == schema[..n] + [schema[n]];
      ExtractionSucceedsIff(schema[..n], words);
      if InRange(schema[n], |words|) {
        ReadableIff(words, schema[n]);
      }
    }
  }

  lemma AllReadable(schema: seq<FieldDef>, words: seq<string>)
    requires BinaryWords(words) && GoodLayout(schema, |words|)
    ensures forall i :: 0 <= i < |schema| && InRange(schema[i], |words|) ==> GetField(words, schema[i]).Ok?
  {
  }

  /** Schema round trip: for any good layout and any fitting field map, apply succeeds, extract succeeds
      on the result, and every resolved field comes back as written or, when not written, unchanged. */
  lemma SchemaRoundTrip(schema: seq<FieldDef>, words: seq<string>, values: seq<FieldValue>, def: FieldDef)
    requires BinaryWords(words) && GoodLayout(schema, |words|)
    requires ValuesFit(schema, |words|, values) && DistinctKeys(values)
    requires def in schema && InRange(def, |words|)
    ensures var applied, before := ApplySchema(schema, words, values), ExtractFields(schema, words);
            && applied.Ok? && before.Ok? && def.field in before.value
            && var after := ExtractFields(schema, applied.value);
               && after.Ok? && def.field in after.value
               && after.value[def.field]
                  == if Assigned(values, def.field).Some? then Assigned(values, def.field).value else before.value[def.field]
  {
    ApplyThenGet(schema, words, values, def);
    var applied := ApplySchema(schema, words, values).value;
    AllReadable(schema, words);
    AllReadable(schema, applied);
    Extracted(schema, words);
    Extracted(schema, applied);
    var k :| 0 <= k < |schema| && schema[k] == def;
  }

  // ---------------------------------------------------------------- what applying does to single bits

  /** A digit of a binary string is the bit that counts from its end. */
  lemma {:induction false} DigitIsBit(s: string, i: nat)
    requires AllBits(s) && i < |s|
    ensures Bit(Parse(s), i) <==> s[|s| - 1 - i] == '1'
  {
    var front := s[..|s| - 1];
    LastDigit(s);
    hide Parse;
    if i > 0 {
      DigitIsBit(front, i - 1);
      assert front[|front| - 1 - (i - 1)] == s[|s| - 1 - i];
    }
  }

  lemma LastDigit(s: string)
    requires AllBits(s) && s != ""
    ensures Parse(s) / 2 == Parse(s[..|s| - 1])
    ensures Parse(s) % 2 == 1 <==> s[|s| - 1] == '1'
  {
    var bit := if s[|s| - 1] == '1' then 1 else 0;
    var n := Parse(s[..|s| - 1]);
    assert Parse(s) == 2 * n + bit;
    hide Parse;
  }

  /** Writing v into a field that resolves changes its word alone, and in it exactly the bits the field names: bit i of
      the new word is bit i - low of v inside the range, and the old one outside. */
  lemma FieldBits(words: seq<string>, def: FieldDef, v: nat, range: Range, i: nat)
    requires BinaryWords(words) && InRange(def, |words|) && ExtractBitRange(def.bits) == Ok(range) && Fits(def, v)
    ensures var r, index := PutField(words, def, v), Resolve(def, |words|);
            && r.Ok? && BinaryWords(r.value)
            && (forall j :: 0 <= j < |words| && j != index ==> r.value[j] == words[j])
            && (Bit(Parse(r.value[index]), i)
                <==> if range.low <= i <= range.high then Bit(v, i - range.low) else Bit(Parse(words[index]), i))
  {
    hide ExtractBitRange, WriteRange, Pow2, Resolve, Bit, Format, Parse;
    var word := Parse(words[Resolve(def, |words|)]);
    WrittenIsNat(word, v, range);
    ParseFormat(WriteRange(word, v, range), 16);
    BitsWritten(word, v, range, i);
  }

  /** The same for a field named by the text "a-b". */
  lemma NamedFieldBits(words: seq<string>, def: FieldDef, v: nat, a: nat, b: nat, i: nat)
    requires BinaryWords(words) && InRange(def, |words|) && def.bits == Show(a) + "-" + Show(b) && a <= b <= 15
    requires v < Pow2(b - a + 1)
    ensures var r, index := PutField(words, def, v), Resolve(def, |words|);
            && r.Ok? && BinaryWords(r.value)
            && (forall j :: 0 <= j < |words| && j != index ==> r.value[j] == words[j])
            && (Bit(Parse(r.value[index]), i) <==> if a <= i <= b then Bit(v, i - a) else Bit(Parse(words[index]), i))
  {
    hide ExtractBitRange, PutField, Pow2, Resolve, Bit, Parse, Show;
    RangeNamed(a, b);
    FieldBits(words, def, v, Range(a, b), i);
  }

  /** And reading such a field gives the number made of those bits. */
  lemma NamedFieldRead(words: seq<string>, def: FieldDef, a: nat, b: nat, i: nat)
    requires BinaryWords(words) && InRange(def, |words|) && def.bits == Show(a) + "-" + Show(b) && a <= b <= 15
    ensures var r := GetField(words, def);
            r.Ok? && (Bit(r.value, i) <==> i + a <= b && Bit(Parse(words[Resolve(def, |words|)]), i + a))
  {
    hide ExtractBitRange, Bit, Parse, Show, ReadRange;
    RangeNamed(a, b);
    BitsRead(Parse(words[Resolve(def, |words|)]), Range(a, b), i);
  }

  /** The field covers bit i of word w in lists of this length. */
  predicate Covers(def: FieldDef, length: nat, w: nat, i: nat) {
    && InRange(def, length) && Resolve(def, length) == w
    && (var range := ExtractBitRange(def.bits); range.Ok? && range.value.low <= i <= range.value.high)
  }

  /** Bit i of word w after a field map: that of the last value written over it, or the bit that was there. */
  function BitAfter(schema: seq<FieldDef>, length: nat, values: seq<FieldValue>, w: nat, i: nat, before: bool): (bit: bool)
  {
    if values == [] then before
    else
      var (field, v) := values[|values| - 1];
      var def := FieldPosition(schema, field);
      if def.Some? && Covers(def.value, length, w, i) then Bit(v, i - ExtractBitRange(def.value.bits).value.low)
      else BitAfter(schema, length, values[..|values| - 1], w, i, before)
  }

  lemma PutFieldBit(words: seq<string>, def: FieldDef, v: nat, w: nat, i: nat)
    requires BinaryWords(words) && w < |words| && PutField(words, def, v).Ok?
    ensures BinaryWords(PutField(words, def, v).value)
    ensures Bit(Parse(PutField(words, def, v).value[w]), i)
       <==> if Covers(def, |words|, w, i) then Bit(v, i - ExtractBitRange(def.bits).value.low) else Bit(Parse(words[w]), i)
  {
    hide ExtractBitRange, Bit, Parse, PutField, Resolve, Fits;
    PutFieldIff(words, def, v);
    if InRange(def, |words|) {
      FieldBits(words, def, v, ExtractBitRange(def.bits).value, i);
    } else {
      PutNowhere(words, def, v);
    }
  }

  /** Every bit of every word after any field map that is applied, for any layout, overlapping or not. */
  lemma {:induction false} AppliedBits(schema: seq<FieldDef>, words: seq<string>, values: seq<FieldValue>, w: nat, i: nat)
    requires BinaryWords(words) && w < |words| && ApplySchema(schema, words, values).Ok?
    ensures var after := ApplySchema(schema, words, values).value;
            && |after| == |words| && BinaryWords(after)
            && (Bit(Parse(after[w]), i) <==> BitAfter(schema, |words|, values, w, i, Bit(Parse(words[w]), i)))
  {
    hide PutField, Covers, ExtractBitRange, FieldPosition, Parse, Bit;
    if values != [] {
      var front := values[..|values| - 1];
      var (field, v) := values[|values| - 1];
      AppliedBits(schema, words, front, w, i);
      var def := FieldPosition(schema, field);
      if def.Some? {
        PutFieldBit(ApplySchema(schema, words, front).value, def.value, v, w, i);
      }
    }
  }

  predicate WordsOf16(words: seq<string>) {
    forall j :: 0 <= j < |words| ==> |words[j]| == 16
  }

  lemma WrittenFits16(word: nat, v: nat, r: Range)
    requires r.low <= r.high <= 15 && v < Pow2(r.high - r.low + 1) && word < Pow2(16)
    ensures 0 <= WriteRange(word, v, r) < Pow2(16)
  {
    forall i: nat | i >= 16 ensures !Bit(WriteRange(word, v, r), i) {
      BitsWritten(word, v, r, i);
      NoHighBits(word, 16, i);
    }
    HighBitsBound(WriteRange(word, v, r), 16);
  }

  lemma PutFieldWidth(words: seq<string>, def: FieldDef, v: nat)
    requires BinaryWords(words) && WordsOf16(words) && PutField(words, def, v).Ok?
    ensures BinaryWords(PutField(words, def, v).value) && WordsOf16(PutField(words, def, v).value)
  {
    hide ExtractBitRange, WriteRange, Pow2, Format, Parse;
    if InRange(def, |words|) {
      var word, range := words[Resolve(def, |words|)], ExtractBitRange(def.bits).value;
      ParseBound(word);
      WrittenFits16(Parse(word), v, range);
      FormatWidth(WriteRange(Parse(word), v, range), 16);
    }
  }

  /** Applying a field map to 16-bit words gives 16-bit words. */
  lemma {:induction false} WordsStayWide(schema: seq<FieldDef>, words: seq<string>, values: seq<FieldValue>)
    requires BinaryWords(words) && WordsOf16(words) && ApplySchema(schema, words, values).Ok?
    ensures BinaryWords(ApplySchema(schema, words, values).value) && WordsOf16(ApplySchema(schema, words, values).value)
  {
    hide PutField, FieldPosition, BinaryWords, WordsOf16;
    if values != [] {
      var front := values[..|values| - 1];
      var (field, v) := values[|values| - 1];
      WordsStayWide(schema, words, front);
      var def := FieldPosition(schema, field);
      if def.Some? {
        PutFieldWidth(ApplySchema(schema, words, front).value, def.value, v);
      }
    }
  }

  /** An entry of the field map can be written: its field is unknown or falls outside the list, or it has a
      readable range that the value fits. */
  predicate Writable(schema: seq<FieldDef>, length: nat, entry: FieldValue) {
    var def := FieldPosition(schema, entry.0);
    def.Some? && InRange(def.value, length) ==> ExtractBitRange(def.value.bits).Ok? && Fits(def.value, entry.1)
  }

  lemma PutFieldIff(words: seq<string>, def: FieldDef, v: nat)
    requires BinaryWords(words)
    ensures PutField(words, def, v).Ok? <==> InRange(def, |words|) ==> ExtractBitRange(def.bits).Ok? && Fits(def, v)
    ensures PutField(words, def, v).Ok? ==> BinaryWords(PutField(words, def, v).value)
  {
    hide ExtractBitRange, Pow2, WriteRange, Format;
  }

  /** Applying a field map succeeds exactly when every one of its entries can be written: a value too large for its
      field, anywhere in the map, makes the whole call fail, and nothing is ever truncated. */
  lemma {:induction false} ApplySucceedsIff(schema: seq<FieldDef>, words: seq<string>, values: seq<FieldValue>)
    requires BinaryWords(words)
    ensures ApplySchema(schema, words, values).Ok? <==> forall k :: 0 <= k < |values| ==> Writable(schema, |words|, values[k])
    ensures ApplySchema(schema, words, values).Ok? ==> BinaryWords(ApplySchema(schema, words, values).value)
  {
    hide ExtractBitRange, Pow2, PutField, BinaryWords;
    if values != [] {
      var n := |values| - 1;
      ApplySucceedsIff(schema, words, values[..n]);
      assert values == values[..n] + [values[n]];
      var front, def := ApplySchema(schema, words, values[..n]), FieldPosition(schema, values[n].0);
      if front.Ok? && def.Some? {
        PutFieldIff(front.value, def.value, values[n].1);
      }
    }
  }

  /** A value one too large for its field is refused wherever it stands in the map. */
  lemma OversizedRefused(schema: seq<FieldDef>, words: seq<string>, values: seq<FieldValue>, k: nat)
    requires BinaryWords(words) && k < |values|
    requires var def := FieldPosition(schema, values[k].0);
             def.Some? && InRange(def.value, |words|) && ExtractBitRange(def.value.bits).Ok? && !Fits(def.value, values[k].1)
    ensures ApplySchema(schema, words, values) == ValueError
  {
    hide ExtractBitRange, ApplySchema, BinaryWords, Fits, InRange;
    ApplySucceedsIff(schema, words, values);
    assert !Writable(schema, |words|, values[k]);
  }

  /** Fields counted from the front and fields counted from the end never meet once the list is long
      enough to hold both ends, and can meet as soon as it is one word shorter. */
  lemma TwoEndedDisjoint(front: FieldDef, back: FieldDef, ahead: nat, behind: nat, length: nat)
    requires 0 <= front.wordIndex < ahead && -(behind as int) <= back.wordIndex < 0
    ensures length >= ahead + behind ==> InRange(front, length) && InRange(back, length) && Resolve(front, length) != Resolve(back, length)
    ensures length + 1 == ahead + behind && front.wordIndex == ahead - 1 && back.wordIndex == -(behind as int)
            ==> Resolve(front, length) == Resolve(back, length)
  {
  }

  /** Two fields named by the same word index have disjoint bit ranges. */
  predicate Apart(a: FieldDef, b: FieldDef) {
    a.wordIndex == b.wordIndex && ExtractBitRange(a.bits).Ok? && ExtractBitRange(b.bits).Ok?
    ==>
      || ExtractBitRange(a.bits).value.high < ExtractBitRange(b.bits).value.low
      || ExtractBitRange(b.bits).value.high < ExtractBitRange(a.bits).value.low
  }

  /** A layout counted partly from the front, partly from the end: different names, readable ranges, at most
      `ahead` words used from the front and `behind` from the end, and disjoint bits at either end. */
  predicate TwoEndedLayout(schema: seq<FieldDef>, ahead: nat, behind: nat) {
    && (forall i :: 0 <= i < |schema| ==> -(behind as int) <= schema[i].wordIndex < ahead && ExtractBitRange(schema[i].bits).Ok?)
    && (forall i, j :: 0 <= i < j < |schema| ==> schema[i].field != schema[j].field && Apart(schema[i], schema[j]))
  }

  lemma ApartIsDisjoint(a: FieldDef, b: FieldDef, ahead: nat, behind: nat, length: nat)
    requires -(behind as int) <= a.wordIndex < ahead && -(behind as int) <= b.wordIndex < ahead
    requires Apart(a, b) && length >= ahead + behind
    ensures Disjoint(a, b, length)
  {
    hide ExtractBitRange;
    if a.wordIndex >= 0 && b.wordIndex < 0 {
      TwoEndedDisjoint(a, b, ahead, behind, length);
    } else if b.wordIndex >= 0 && a.wordIndex < 0 {
      TwoEndedDisjoint(b, a, ahead, behind, length);
    }
  }

  /** A two-ended layout is good for every list long enough to hold both ends, and all its fields are then in the
      list; so every fitting field map makes the round trip. */
  lemma TwoEndedRoundTrip(schema: seq<FieldDef>, ahead: nat, behind: nat, words: seq<string>, values: seq<FieldValue>, def: FieldDef)
    requires TwoEndedLayout(schema, ahead, behind) && |words| >= ahead + behind && BinaryWords(words)
    requires ValuesFit(schema, |words|, values) && DistinctKeys(values) && def in schema
    ensures GoodLayout(schema, |words|) && InRange(def, |words|)
    ensures var applied, before := ApplySchema(schema, words, values), ExtractFields(schema, words);
            && applied.Ok? && before.Ok? && def.field in before.value
            && var after := ExtractFields(schema, applied.value);
               && after.Ok? && def.field in after.value
               && after.value[def.field]
                  == if Assigned(values, def.field).Some? then Assigned(values, def.field).value else before.value[def.field]
  {
    hide ExtractBitRange, BinaryWords, ValuesFit, DistinctKeys, ApplySchema, ExtractFields, Apart, Disjoint;
    forall i, j | 0 <= i < j < |schema| ensures Disjoint(schema[i], schema[j], |words|) {
      ApartIsDisjoint(schema[i], schema[j], ahead, behind, |words|);
    }
    SchemaRoundTrip(schema, words, values, def);
  }
}
