/** The serialisation helpers: `_serialize_to_data` reads an object's `data`,
    and `_deserialize_from_data` resolves the class named by a `dtype`
    envelope (`"<module>/<class>"`) and rebuilds the object from the
    envelope's `data`. Resolving a class name and running the class's
    `from_data` are calls into code the model cannot see; they are passed in
    as functions. */
module Utilities {
  import opened PyValues

  /** A Python object as serialisation sees it: `None`, or an object that
      has a `data` attribute (`Some`) or not (`None`). */
  datatype PyObject<D> = PyNone | PyObj(data: Option<D>)

  /** `_serialize_to_data(obj)`. */
  function Serialize<D>(obj: PyObject<D>): (r: Result<Option<D>>)
    ensures obj.PyNone? ==> r == Ok(None)
    ensures obj.PyObj? && obj.data.Some? ==> r == Ok(Some(obj.data.value))
    ensures obj.PyObj? && obj.data.None? ==> r == Err(AttributeError)
  {
    match obj
    case PyNone => Ok(None)
    case PyObj(d) => if d.Some? then Ok(Some(d.value)) else Err(AttributeError)
  }

  /** What `_deserialize_from_data` may be handed: `None`, a dictionary
      (its `dtype` and `data` entries, each `None` when absent), or a value
      with no `get` method, such as a list. */
  datatype Payload<D> = NoPayload | Envelope(dtype: Datum, data: Option<D>) | NotADict

  /** The number of occurrences of `c` in `s`. */
  function Count(s: string, c: char): nat {
    if |s| == 0 then 0 else (if s[0] == c then 1 else 0) + Count(s[1..], c)
  }

  /** `s.split(c)`: the pieces between occurrences of `c`. */
  function Split(s: string, c: char): (r: seq<string>)
    ensures |r| == Count(s, c) + 1
    ensures forall i :: 0 <= i < |r| ==> c !in r[i]
    decreases |s|
  {
    if |s| == 0 then [""]
    else
      var rest := Split(s[1..], c);
      if s[0] == c then [""] + rest
      else [[s[0]] + rest[0]] + rest[1..]
  }

  /** `_deserialize_from_data(data)`. `None`, or a dictionary without a
      `dtype`, gives `None`. A value without `get` raises AttributeError, as
      does a `dtype` that is not a string. A `dtype` that does not split into
      exactly two parts on `/` raises ValueError. Otherwise the class
      `lookup(moduleName, name)` resolves builds the object from the `data`
      entry. */
  function Deserialize<C, D, T>(payload: Payload<D>, lookup: (string, string) -> Result<C>,
                                fromData: (C, Option<D>) -> T): (r: Result<Option<T>>)
    ensures payload.NoPayload? ==> r == Ok(None)
    ensures payload.NotADict? ==> r == Err(AttributeError)
    ensures payload.Envelope? && payload.dtype == DNone ==> r == Ok(None)
    ensures payload.Envelope? && payload.dtype.DStr? && |Split(payload.dtype.s, '/')| != 2 ==> r == Err(ValueError)
    ensures r.Ok? && r.value.Some? ==>
      && payload.Envelope? && payload.dtype.DStr?
      && var parts := Split(payload.dtype.s, '/');
         |parts| == 2 && lookup(parts[0], parts[1]).Ok?
         && r.value.value == fromData(lookup(parts[0], parts[1]).value, payload.data)
  {
    match payload
    case NoPayload => Ok(None)
    case NotADict => Err(AttributeError)
    case Envelope(dtype, data) =>
      if dtype == DNone then Ok(None)
      else if !dtype.DStr? then Err(AttributeError)
      else
        var parts := Split(dtype.s, '/');
        if |parts| != 2 then Err(ValueError)
        else
          var cls :- lookup(parts[0], parts[1]);
          Ok(Some(fromData(cls, data)))
  }

  /** Splitting text without `c` gives the text itself. */
  lemma {:induction false} SplitOfPlain(s: string, c: char)
    requires c !in s
    ensures Split(s, c) == [s]
    decreases |s|
  {
    if |s| > 0 {
      SplitOfPlain(s[1..], c);
      assert [s[0]] + s[1..] == s;
    }
  }

  /** `(a + c + b).split(c)` is `[a, b]` when neither part contains `c`. */
  lemma {:induction false} SplitOfPair(a: string, b: string, c: char)
    requires c !in a && c !in b
    ensures Split(a + [c] + b, c) == [a, b]
    decreases |a|
  {
    var s := a + [c] + b;
    if |a| == 0 {
      assert s == [c] + b;
      assert s[1..] == b;
      SplitOfPlain(b, c);
    } else {
      assert s[0] == a[0];
      assert s[1..] == a[1..] + [c] + b;
      SplitOfPair(a[1..], b, c);
      assert [a[0]] + a[1..] == a;
    }
  }

  /** Serialising an object and wrapping the result in an envelope that
      names the object's class deserialises back to the object, when the
      class's `from_data` rebuilds what `data` describes. */
  lemma RoundTrip<C, D, T>(obj: PyObject<D>, moduleName: string, name: string,
                           lookup: (string, string) -> Result<C>, fromData: (C, Option<D>) -> T, rebuilt: T)
    requires '/' !in moduleName && '/' !in name
    requires Serialize(obj).Ok? && Serialize(obj).value.Some?
    requires lookup(moduleName, name).Ok?
    requires fromData(lookup(moduleName, name).value, Serialize(obj).value) == rebuilt
    ensures Deserialize(Envelope(DStr(moduleName + "/" + name), Serialize(obj).value), lookup, fromData) == Ok(Some(rebuilt))
  {
    assert moduleName + "/" + name == moduleName + ['/'] + name;
    SplitOfPair(moduleName, name, '/');
  }
}
