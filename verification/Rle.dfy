/**
 Run-length encoding of announcement vectors (service/announce.rs) and its decoder
 (discovery/service_info/parse.rs): a run of one is a bare value, a longer one a pair of count and value.
 */
module Rle {
  import opened Wrappers
  import opened Text
  import opened Json

  // ---------------------------------------------------------------- encoding

  /** The length of the run at the front. */
  function RunLength<T(==)>(items: seq<T>): (n: nat)
    requires items != []
    ensures 0 < n <= |items|
    ensures forall i :: 0 <= i < n ==> items[i] == items[0]
    ensures n < |items| ==> items[n] != items[0]
  {
    if |items| > 1 && items[1] == items[0] then 1 + RunLength(items[1..]) else 1
  }

  function Run(count: nat, value: Value): Value {
    if count > 1 then Arr([Integer(count), value]) else value
  }

  function Encoded<T(==)>(items: seq<T>, wrap: T -> Value): seq<Value> {
    if items == [] then []
    else
      var n := RunLength(items);
      [Run(n, wrap(items[0]))] + Encoded(items[n..], wrap)
  }

  /** `rle_encode_strings` and `rle_encode_numbers`, which differ in how they wrap a value only. */
  method Encode<T(==)>(items: seq<T>, wrap: T -> Value) returns (out: seq<Value>)
    ensures out == Encoded(items, wrap)
  {
    hide Encoded, Run;
    out := [];
    var i := 0;
    assert items[0..] == items;
    while i < |items|
      invariant i <= |items|
      invariant out + Encoded(items[i..], wrap) == Encoded(items, wrap)
    {
      var val := items[i];
      var count := 1;
      while i + count < |items| && items[i + count] == val
        invariant i + count <= |items|
        invariant forall k :: i <= k < i + count ==> items[k] == val
      {
        count := count + 1;
      }
      RunStep(items, i, count, wrap);
      RunIs(count, wrap(val));
      if count > 1 {
        out := out + [Arr([Integer(count), wrap(val)])];
      } else {
        out := out + [wrap(val)];
      }
      i := i + count;
    }
    NothingEncoded(wrap);
    assert items[i..] == [];
  }

  lemma RunIs(count: nat, value: Value)
    ensures Run(count, value) == if count > 1 then Arr([Integer(count), value]) else value
  {
  }

  lemma NothingEncoded<T>(wrap: T -> Value)
    ensures Encoded([], wrap) == []
  {
  }

  lemma RunStep<T>(items: seq<T>, i: nat, count: nat, wrap: T -> Value)
    requires 0 < count && i + count <= |items|
    requires forall k :: i <= k < i + count ==> items[k] == items[i]
    requires i + count < |items| ==> items[i + count] != items[i]
    ensures Encoded(items[i..], wrap) == [Run(count, wrap(items[i]))] + Encoded(items[i + count..], wrap)
  {
    var rest := items[i..];
    assert forall k :: 0 <= k < |rest| ==> rest[k] == items[i + k];
    assert RunLength(rest) == count;
    assert rest[count..] == items[i + count..];
  }

  // ---------------------------------------------------------------- decoding

  function Repeat<T>(x: T, count: nat): (s: seq<T>)
    ensures |s| == count && forall i :: 0 <= i < count ==> s[i] == x
  {
    if count == 0 then [] else Repeat(x, count - 1) + [x]
  }

  /** One entry of an encoded vector. */
  function Expanded<T>(entry: Value, name: string, i: nat, read: Value -> Option<T>): Result<seq<T>, ParseError> {
    if entry.Arr? && |entry.items| == 2 then
      match AsU64(entry.items[0])
      case None => Err(RleRepeatCount(name, i))
      case Some(count) =>
        match read(entry.items[1])
        case None => Err(RleValue(name, i))
        case Some(x) => Ok(Repeat(x, count))
    else if entry.Arr? then Err(RleChunkLen(name, i, |entry.items|))
    else
      match read(entry)
      case None => Err(RleValue(name, i))
      case Some(x) => Ok([x])
  }

  function Decoded<T>(rle: seq<Value>, name: string, read: Value -> Option<T>): Result<seq<T>, ParseError> {
    if rle == [] then Ok([])
    else
      match Decoded(rle[..|rle| - 1], name, read)
      case Err(e) => Err(e)
      case Ok(front) =>
        match Expanded(rle[|rle| - 1], name, |rle| - 1, read)
        case Err(e) => Err(e)
        case Ok(last) => Ok(front + last)
  }

  /** `unrle`: the field `name` of an object, as a vector; `len` is the length of a missing
      or scalar one, and `init` the default value. */
  function Unrle<T>(obj: map<string, Value>, name: string, required: bool, len: nat, init: T, read: Value -> Option<T>)
    : Result<seq<T>, ParseError>
  {
    if name !in obj then
      if required then Err(MissingField(name)) else Ok(Repeat(init, len))
    else if obj[name].Arr? then Decoded(obj[name].items, name, read)
    else
      match read(obj[name])
      case None => Err(RleValue(name, 0))
      case Some(x) => Ok(Repeat(x, len))
  }

  method UnrleField<T>(obj: map<string, Value>, name: string, required: bool, len: nat, init: T,
                       read: Value -> Option<T>)
    returns (r: Result<seq<T>, ParseError>)
    ensures r == Unrle(obj, name, required, len, init, read)
  {
    if name !in obj {
      return if required then Err(MissingField(name)) else Ok(Repeat(init, len));
    }
    if !obj[name].Arr? {
      var scalar := read(obj[name]);
      return if scalar.None? then Err(RleValue(name, 0)) else Ok(Repeat(scalar.value, len));
    }
    var rle := obj[name].items;
    var out: seq<T> := [];
    for i := 0 to |rle|
      invariant Decoded(rle[..i], name, read) == Ok(out)
    {
      assert rle[..i + 1][..i] == rle[..i];
      var chunk := Expanded(rle[i], name, i, read);
      if chunk.Err? {
        ErrorStays(rle, i + 1, name, read);
        return chunk;
      }
      out := out + chunk.value;
    }
    assert rle[..|rle|] == rle;
    return Ok(out);
  }

  /** The first bad entry decides the error. */
  lemma {:induction false} ErrorStays<T>(rle: seq<Value>, n: nat, name: string, read: Value -> Option<T>)
    requires n <= |rle| && Decoded(rle[..n], name, read).Err?
    ensures Decoded(rle, name, read) == Decoded(rle[..n], name, read)
  {
    if n == |rle| {
      assert rle[..n] == rle;
    } else {
      assert rle[..|rle| - 1][..n] == rle[..n];
      ErrorStays(rle[..|rle| - 1], n, name, read);
    }
  }

  // ---------------------------------------------------------------- what a field says

  /** An entry is a value, or a pair of a 64-bit count and a value. */
  predicate Good<T>(entry: Value, read: Value -> Option<T>) {
    if entry.Arr? then
      && |entry.items| == 2
      && entry.items[0].Integer? && 0 <= entry.items[0].n < 0x1_0000_0000_0000_0000 && read(entry.items[1]).Some?
    else read(entry).Some?
  }

  /** What is wrong with entry `i`. */
  function Fault<T>(entry: Value, name: string, i: nat, read: Value -> Option<T>): ParseError {
    if entry.Arr? && |entry.items| != 2 then RleChunkLen(name, i, |entry.items|)
    else if entry.Arr? && !(entry.items[0].Integer? && 0 <= entry.items[0].n < 0x1_0000_0000_0000_0000)
    then RleRepeatCount(name, i)
    else RleValue(name, i)
  }

  lemma EntryExactly<T>(entry: Value, name: string, i: nat, read: Value -> Option<T>)
    ensures Expanded(entry, name, i, read).Ok? <==> Good(entry, read)
    ensures Expanded(entry, name, i, read).Err? ==> Expanded(entry, name, i, read).error == Fault(entry, name, i, read)
  {
  }

  predicate AllGood<T>(rle: seq<Value>, read: Value -> Option<T>) {
    forall i :: 0 <= i < |rle| ==> Good(rle[i], read)
  }

  /** Entry `i` is the first that is bad, and this is what is wrong with it. */
  predicate FirstFault<T(==)>(rle: seq<Value>, name: string, i: nat, read: Value -> Option<T>, e: ParseError) {
    i < |rle| && !Good(rle[i], read) && AllGood(rle[..i], read) && e == Fault(rle[i], name, i, read)
  }

  lemma {:induction false} DecodedExactly<T>(rle: seq<Value>, name: string, read: Value -> Option<T>) returns (bad: nat)
    ensures Decoded(rle, name, read).Ok? <==> AllGood(rle, read)
    ensures Decoded(rle, name, read).Err? ==> FirstFault(rle, name, bad, read, Decoded(rle, name, read).error)
  {
    hide Expanded, Good, Fault;
    if rle == [] {
      bad := 0;
    } else {
      var n := |rle| - 1;
      var front := rle[..n];
      bad := DecodedExactly(front, name, read);
      EntryExactly(rle[n], name, n, read);
      if Decoded(front, name, read).Err? {
        assert rle[bad] == front[bad] && rle[..bad] == front[..bad];
      } else {
        assert forall i :: 0 <= i < n ==> front[i] == rle[i];
        if Decoded(rle, name, read).Err? {
          bad := n;
        }
      }
    }
  }

  /** A field that is missing counts as so many default values, unless it is required; a single value as so many of
      it; an array is taken exactly if all its entries are good, and else the first bad one is reported. */
  lemma FieldRead<T>(obj: map<string, Value>, name: string, required: bool, len: nat, init: T, read: Value -> Option<T>)
    ensures
      var r := Unrle(obj, name, required, len, init, read);
      if name !in obj then
        if required then r == Err(MissingField(name))
        else r.Ok? && |r.value| == len && forall i :: 0 <= i < len ==> r.value[i] == init
      else if obj[name].Arr? then
        var rle := obj[name].items;
        && (r.Ok? <==> AllGood(rle, read))
        && (r.Err? ==> exists bad: nat :: FirstFault(rle, name, bad, read, r.error))
      else if read(obj[name]).None? then r == Err(RleValue(name, 0))
      else r.Ok? && |r.value| == len && forall i :: 0 <= i < len ==> r.value[i] == read(obj[name]).value
  {
    hide Decoded, AllGood, FirstFault;
    if name in obj && obj[name].Arr? {
      var bad := DecodedExactly(obj[name].items, name, read);
    }
  }

  // ---------------------------------------------------------------- round trip

  /** `read` undoes `wrap`, and no wrapped value looks like a run. */
  ghost predicate Scalar<T(!new)>(wrap: T -> Value, read: Value -> Option<T>) {
    forall x :: read(wrap(x)) == Some(x) && !wrap(x).Arr?
  }

  lemma Scalars()
    ensures Scalar(OfString, AsString)
    ensures Scalar(OfU32, ReadU32)
  {
  }

  lemma {:induction false} DecodedConcat<T>(a: seq<Value>, b: seq<Value>, name: string, read: Value -> Option<T>)
    requires Decoded(a, name, read).Ok?
    ensures Decoded(a + b, name, read).Ok? <==> Decoded(b, name, read).Ok?
    ensures Decoded(b, name, read).Ok? ==>
              Decoded(a + b, name, read).value == Decoded(a, name, read).value + Decoded(b, name, read).value
  {
    if b == [] {
      assert a + b == a;
    } else {
      assert (a + b)[..|a + b| - 1] == a + b[..|b| - 1];
      DecodedConcat(a, b[..|b| - 1], name, read);
    }
  }

  lemma RunDecoded<T(!new)>(x: T, n: nat, wrap: T -> Value, read: Value -> Option<T>, name: string)
    requires Scalar(wrap, read) && 0 < n < U64_BOUND
    ensures Decoded([Run(n, wrap(x))], name, read) == Ok(Repeat(x, n))
  {
    var run := [Run(n, wrap(x))];
    assert run[..0] == [];
    assert Expanded(run[0], name, 0, read) == Ok(Repeat(x, n)) by {
      if n == 1 {
        assert Repeat(x, 1) == [x];
      }
    }
    assert [] + Repeat(x, n) == Repeat(x, n);
  }

  /** Every vector comes back as it was; lengths are 64-bit numbers. */
  lemma {:induction false} RoundTrip<T(!new)>(items: seq<T>, wrap: T -> Value, read: Value -> Option<T>, name: string)
    requires Scalar(wrap, read) && |items| < U64_BOUND
    ensures Decoded(Encoded(items, wrap), name, read) == Ok(items)
    decreases |items|
  {
    if items != [] {
      var n := RunLength(items);
      var run := [Run(n, wrap(items[0]))];
      RunDecoded(items[0], n, wrap, read, name);
      assert Repeat(items[0], n) == items[..n];
      RoundTrip(items[n..], wrap, read, name);
      assert Encoded(items, wrap) == run + Encoded(items[n..], wrap);
      assert items == items[..n] + items[n..];
      DecodedConcat(run, Encoded(items[n..], wrap), name, read);
    }
  }

  // ---------------------------------------------------------------- the encoding is the shortest

  /** How often the value changes along a vector, counting the first value. */
  function Changes<T(==)>(items: seq<T>): nat {
    if items == [] then 0
    else if |items| == 1 then 1
    else Changes(items[..|items| - 1]) + (if items[|items| - 1] != items[|items| - 2] then 1 else 0)
  }

  lemma {:induction false} ChangesConcat<T>(a: seq<T>, b: seq<T>)
    ensures Changes(a + b) <= Changes(a) + Changes(b)
    ensures a != [] && b != [] && a[|a| - 1] != b[0] ==> Changes(a + b) == Changes(a) + Changes(b)
  {
    if b == [] {
      assert a + b == a;
    } else if a == [] {
      assert a + b == b;
    } else {
      assert (a + b)[..|a + b| - 1] == a + b[..|b| - 1];
      ChangesConcat(a, b[..|b| - 1]);
    }
  }

  lemma {:induction false} ChangesConstant<T>(items: seq<T>)
    requires forall i :: 0 <= i < |items| ==> items[i] == items[0]
    ensures Changes(items) == if items == [] then 0 else 1
  {
    if |items| > 1 {
      ChangesConstant(items[..|items| - 1]);
    }
  }

  /** The run at the front is one change. */
  lemma RunChanges<T>(items: seq<T>)
    requires items != []
    ensures Changes(items) == 1 + Changes(items[RunLength(items)..])
  {
    hide RunLength;
    var n := RunLength(items);
    ChangesConstant(items[..n]);
    assert items == items[..n] + items[n..];
    if n < |items| {
      assert items[..n][n - 1] == items[0] && items[n..][0] == items[n];
      ChangesConcat(items[..n], items[n..]);
    } else {
      assert items[..n] == items;
    }
  }

  /** The encoder makes one entry for each change. */
  lemma {:induction false} EncodedLength<T>(items: seq<T>, wrap: T -> Value)
    ensures |Encoded(items, wrap)| == Changes(items)
    decreases |items|
  {
    hide RunLength, Run;
    if items != [] {
      hide Changes;
      EncodedLength(items[RunLength(items)..], wrap);
      RunChanges(items);
    }
  }

  /** Whatever encoding the decoder accepts, zero counts included, has an entry for each change. */
  lemma {:induction false} AnyEncodingLength<T(!new)>(rle: seq<Value>, name: string, read: Value -> Option<T>)
    requires Decoded(rle, name, read).Ok?
    ensures Changes(Decoded(rle, name, read).value) <= |rle|
  {
    if rle != [] {
      AnyEncodingLength(rle[..|rle| - 1], name, read);
      var front := Decoded(rle[..|rle| - 1], name, read).value;
      var last := Expanded(rle[|rle| - 1], name, |rle| - 1, read).value;
      ChangesConstant(last);
      ChangesConcat(front, last);
    }
  }

  /** No encoding that decodes to a vector is shorter than the one made for it. */
  lemma Shortest<T(!new)>(items: seq<T>, wrap: T -> Value, rle: seq<Value>, name: string, read: Value -> Option<T>)
    requires Decoded(rle, name, read) == Ok(items)
    ensures |Encoded(items, wrap)| <= |rle|
  {
    EncodedLength(items, wrap);
    AnyEncodingLength(rle, name, read);
  }

  /** The value an entry repeats. */
  function ValueOf(entry: Value): Value {
    if entry.Arr? && |entry.items| == 2 then entry.items[1] else entry
  }

  /** Neighbouring entries repeat different values. */
  lemma {:induction false} NeighboursDiffer<T(!new)>(items: seq<T>, wrap: T -> Value, read: Value -> Option<T>, i: nat)
    requires Scalar(wrap, read) && i + 1 < |Encoded(items, wrap)|
    ensures ValueOf(Encoded(items, wrap)[i]) != ValueOf(Encoded(items, wrap)[i + 1])
    decreases |items|
  {
    var n := RunLength(items);
    if i == 0 {
      var rest := items[n..];
      assert ValueOf(Encoded(items, wrap)[0]) == wrap(items[0]);
      assert ValueOf(Encoded(rest, wrap)[0]) == wrap(rest[0]);
      assert read(wrap(items[0])) != read(wrap(rest[0]));
    } else {
      NeighboursDiffer(items[n..], wrap, read, i - 1);
    }
  }
}
