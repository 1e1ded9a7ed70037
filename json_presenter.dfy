/** `to_hash`: the hash from each JSON field name to what the instance's
    public method of that name returns, over the memoised field list. */
module JsonPresenter {
  import opened Values
  import opened OrderedTables
  import opened Declaration
  import opened Resolution

  /** `fields.delete(x)`: every occurrence of `x` removed, the rest kept
      in order. */
  function Without(s: seq<Symbol>, x: Symbol): (r: seq<Symbol>)
    ensures x !in r
    ensures forall y :: y != x ==> (y in r <==> y in s)
    ensures |r| <= |s|
    ensures Distinct(s) ==> Distinct(r)
  {
    if s == [] then []
    else if s[0] == x then Without(s[1..], x)
    else
      var rest := Without(s[1..], x);
      assert Distinct(s) ==> Distinct([s[0]] + rest) by {
        if Distinct(s) {
          assert s[0] !in s[1..];
          assert Distinct(s[1..]);
        }
      }
      [s[0]] + rest
  }

  /** Removing `x` from a concatenation removes it from each part, so the
      kept names stay in their order. */
  lemma {:induction false} WithoutAppend(a: seq<Symbol>, b: seq<Symbol>, x: Symbol)
    ensures Without(a + b, x) == Without(a, x) + Without(b, x)
  {
    if a != [] {
      assert (a + b)[0] == a[0] && (a + b)[1..] == a[1..] + b;
      WithoutAppend(a[1..], b, x);
      if a[0] != x {
        assert Without(a + b, x) == [a[0]] + Without(a[1..] + b, x);
        assert [a[0]] + (Without(a[1..], x) + Without(b, x)) == ([a[0]] + Without(a[1..], x)) + Without(b, x);
      }
    } else {
      assert a + b == b;
    }
  }

  /** `json_fields`: the memoised list if there is one, otherwise the
      public methods without `:subject`. */
  function Fields(memo: Option<seq<Symbol>>, publicMethods: seq<Symbol>): (r: seq<Symbol>)
    ensures memo.None? ==> "subject" !in r && forall y :: y != "subject" ==> (y in r <==> y in publicMethods)
    ensures memo.Some? ==> r == memo.value
  {
    match memo
    case Some(fields) => fields
    case None => Without(publicMethods, "subject")
  }

  /** `fields.collect { |field| public_send(field) }`, in order, each call
      seeing the instance variables the earlier ones left; the first error
      is raised. */
  function Calls(shape: Shape, own: map<Symbol, Value>, stack: nat, s: State, fields: seq<Symbol>): (r: (Result<seq<Value>>, State))
    requires shape.slots != []
    ensures r.0.Ok? ==> |r.0.value| == |fields|
  {
    if fields == [] then (Ok([]), s)
    else
      var n := |fields| - 1;
      var (before, s0) := Calls(shape, own, stack, s, fields[..n]);
      match before
      case Err(f) => (Err(f), s0)
      case Ok(vs) =>
        var (last, s1) := Dispatch(shape, own, stack, s0, fields[n]);
        match last
        case Err(f) => (Err(f), s1)
        case Ok(v) => (Ok(vs + [v]), s1)
  }

  /** The collection over one more field is the collection so far
      followed by the call for that field. */
  lemma CallsNext(shape: Shape, own: map<Symbol, Value>, stack: nat, s: State, fields: seq<Symbol>, i: nat,
                  vs: seq<Value>, s0: State)
    requires shape.slots != []
    requires i < |fields|
    requires Calls(shape, own, stack, s, fields[..i]) == (Ok(vs), s0)
    ensures Calls(shape, own, stack, s, fields[..i + 1]) ==
      match Dispatch(shape, own, stack, s0, fields[i]).0
      case Err(f) => (Err(f), Dispatch(shape, own, stack, s0, fields[i]).1)
      case Ok(v) => (Ok(vs + [v]), Dispatch(shape, own, stack, s0, fields[i]).1)
  {
    assert fields[..i + 1][..i] == fields[..i];
  }

  /** Once a call fails, the whole collection fails with that error and
      the instance variables it left. */
  lemma {:induction false} CallsStops(shape: Shape, own: map<Symbol, Value>, stack: nat, s: State, fields: seq<Symbol>, i: nat)
    requires shape.slots != []
    requires 0 < i <= |fields|
    requires Calls(shape, own, stack, s, fields[..i]).0.Err?
    ensures Calls(shape, own, stack, s, fields) == Calls(shape, own, stack, s, fields[..i])
    decreases |fields|
  {
    if i < |fields| {
      var n := |fields| - 1;
      assert fields[..n][..i] == fields[..i];
      CallsStops(shape, own, stack, s, fields[..n], i);
    } else {
      assert fields[..i] == fields;
    }
  }

  function Zip(fields: seq<Symbol>, vs: seq<Value>): (pairs: seq<(Symbol, Value)>)
    requires |fields| == |vs|
    ensures |pairs| == |fields|
    ensures forall i :: 0 <= i < |fields| ==> pairs[i] == (fields[i], vs[i])
  {
    seq(|fields|, i requires 0 <= i < |fields| => (fields[i], vs[i]))
  }

  /** `to_hash` over a field list: `Hash[[field, public_send(field)], ...]`. */
  function ToHash(shape: Shape, own: map<Symbol, Value>, stack: nat, s: State, fields: seq<Symbol>): (r: (Result<Table<Symbol, Value>>, State))
    requires shape.slots != []
    ensures r.0.Ok? <==> Calls(shape, own, stack, s, fields).0.Ok?
    ensures r.0.Err? ==> r.0.error == Calls(shape, own, stack, s, fields).0.error
    ensures r.1 == Calls(shape, own, stack, s, fields).1
    ensures r.0.Ok? ==> r.0.value.Valid()
  {
    var (r, s1) := Calls(shape, own, stack, s, fields);
    match r
    case Err(f) => (Err(f), s1)
    case Ok(vs) => (Ok(FromPairs(Zip(fields, vs))), s1)
  }

  /** When all the calls succeed, the i-th value is what `public_send` of
      the i-th field returns, after the calls for the fields before it. */
  lemma {:induction false} CallsPrefix(shape: Shape, own: map<Symbol, Value>, stack: nat, s: State, fields: seq<Symbol>, i: nat)
    requires shape.slots != []
    requires i < |fields|
    requires Calls(shape, own, stack, s, fields).0.Ok?
    ensures var before := Calls(shape, own, stack, s, fields[..i]);
      && before.0.Ok?
      && Dispatch(shape, own, stack, before.1, fields[i]).0.Ok?
      && Calls(shape, own, stack, s, fields).0.value[i] == Dispatch(shape, own, stack, before.1, fields[i]).0.value
  {
    var n := |fields| - 1;
    if i < n {
      assert fields[..n][..i] == fields[..i];
      assert fields[..n][i] == fields[i];
      CallsPrefix(shape, own, stack, s, fields[..n], i);
    }
  }

  /** The keys of `to_hash` are exactly the fields, in their order, when
      the fields are distinct. */
  lemma ToHashKeys(shape: Shape, own: map<Symbol, Value>, stack: nat, s: State, fields: seq<Symbol>)
    requires shape.slots != []
    requires Distinct(fields)
    requires ToHash(shape, own, stack, s, fields).0.Ok?
    ensures ToHash(shape, own, stack, s, fields).0.value.keys == fields
  {
    var vs := Calls(shape, own, stack, s, fields).0.value;
    var pairs := Zip(fields, vs);
    assert Firsts(pairs) == fields;
    FromPairsKeys(pairs);
  }

  /** Under each field, `to_hash` holds what `public_send` of that field
      returned, after the calls for the fields before it. */
  lemma ToHashValue(shape: Shape, own: map<Symbol, Value>, stack: nat, s: State, fields: seq<Symbol>, i: nat)
    requires shape.slots != []
    requires Distinct(fields) && i < |fields|
    requires ToHash(shape, own, stack, s, fields).0.Ok?
    ensures Calls(shape, own, stack, s, fields[..i]).0.Ok?
    ensures Dispatch(shape, own, stack, Calls(shape, own, stack, s, fields[..i]).1, fields[i]).0.Ok?
    ensures fields[i] in ToHash(shape, own, stack, s, fields).0.value.values
    ensures ToHash(shape, own, stack, s, fields).0.value.values[fields[i]] ==
            Dispatch(shape, own, stack, Calls(shape, own, stack, s, fields[..i]).1, fields[i]).0.value
  {
    var vs := Calls(shape, own, stack, s, fields).0.value;
    var pairs := Zip(fields, vs);
    CallsPrefix(shape, own, stack, s, fields, i);
    forall j | i < j < |pairs| ensures pairs[j].0 != pairs[i].0 {
      assert pairs[j].0 == fields[j] && pairs[i].0 == fields[i];
    }
    FromPairsHolds(pairs, i);
  }

  /** Every key of `to_hash` is one of the fields: computed from the
      public methods, `:subject` is never one. */
  lemma ToHashKeysAreFields(shape: Shape, own: map<Symbol, Value>, stack: nat, s: State, fields: seq<Symbol>, k: Symbol)
    requires shape.slots != []
    requires ToHash(shape, own, stack, s, fields).0.Ok?
    requires k in ToHash(shape, own, stack, s, fields).0.value.keys
    ensures k in fields
  {
    var vs := Calls(shape, own, stack, s, fields).0.value;
    var pairs := Zip(fields, vs);
    assert Firsts(pairs) == fields;
    FromPairsKeysIn(pairs, k);
  }

  lemma NoSubjectField(shape: Shape, own: map<Symbol, Value>, stack: nat, s: State, publicMethods: seq<Symbol>)
    requires shape.slots != []
    requires ToHash(shape, own, stack, s, Fields(None, publicMethods)).0.Ok?
    ensures "subject" !in ToHash(shape, own, stack, s, Fields(None, publicMethods)).0.value.keys
  {
    if "subject" in ToHash(shape, own, stack, s, Fields(None, publicMethods)).0.value.keys {
      ToHashKeysAreFields(shape, own, stack, s, Fields(None, publicMethods), "subject");
    }
  }
}
