/** A presenter instance: its instance variables (the bound subjects and
    the wrapper caches) and its memoised JSON field list, and the
    operations that read and fill them. */
module Instances {
  import opened Values
  import opened OrderedTables
  import opened Declaration
  import opened PresenterClasses
  import opened Resolution
  import opened JsonPresenter

  class Instance {
    const cls: PresenterClass
    /** The instance variables, by name without the `@`. */
    var ivars: State
    /** `@json_fields`. */
    var jsonFields: Option<seq<Symbol>>

    /** A memoised field list never holds `:subject`. */
    ghost predicate Valid()
      reads this
    {
      jsonFields.Some? ==> "subject" !in jsonFields.value
    }

    /** `cls.new(*args)`: sets the instance variable of each slot, in
        order, to the argument at its position, nil when there is none. */
    constructor(cls: PresenterClass, args: seq<Value>)
      requires cls.Valid()
      modifies cls
      ensures Valid() && cls.Valid()
      ensures this.cls == cls && jsonFields == None
      ensures cls.subjects == old(cls.Slots())
      ensures cls.methods == old(cls.methods) && cls.attributes == old(cls.attributes) && cls.wrappers == old(cls.wrappers)
      ensures ivars == Bind(cls.subjects, args)
    {
      this.cls := cls;
      jsonFields := None;
      ivars := map[];
      new;
      var names := cls.Subjects([]);
      for i := 0 to |names|
        invariant ivars == Bind(names[..i], args) && jsonFields == None
        modifies this
      {
        assert names[..i + 1][..i] == names[..i];
        ivars := ivars[names[i] := ArgAt(args, i)];
      }
      assert names[..|names|] == names;
    }

    /** `public_send(name)`, where `own` gives the answers of the
        hand-written public methods and `stack` the call depth left. */
    method PublicSend(name: Symbol, own: map<Symbol, Value>, stack: nat) returns (r: Result<Value>)
      modifies this
      ensures (r, ivars) == Dispatch(cls.View(), own, stack, old(ivars), name)
      ensures jsonFields == old(jsonFields)
      decreases stack, 1
    {
      var shape := cls.View();
      if name in shape.methods {
        match shape.methods[name]
        case Reader(iv) =>
          r := Ok(Ivar(ivars, iv));
        case Proxy(c, attr, p) =>
          var v := ProxyMessage(shape.slots, ivars, c, attr);
          r := if v.Err? then Err(v.error) else Ok(Decorate(v.value, p));
        case Delegate(w, attr) =>
          if w !in shape.wrappers {
            r := Err(NoMethodError(w));
          } else {
            var target := Wrapper(w, own, stack);
            if target.Err? {
              r := target;
            } else if target.value.Nil? {
              r := Err(DelegationError(attr));
            } else {
              r := Call(target.value, attr);
            }
          }
      } else if name in own {
        r := Ok(own[name]);
      } else {
        r := Err(NoMethodError(name));
      }
    }

    /** The wrapper method `w`: a check-then-set on its instance variable. */
    method Wrapper(w: Symbol, own: map<Symbol, Value>, stack: nat) returns (r: Result<Value>)
      requires w in cls.wrappers
      modifies this
      ensures (r, ivars) == WrapperCall(cls.View(), own, stack, old(ivars), w)
      ensures jsonFields == old(jsonFields)
      decreases stack, 0
    {
      var def := cls.wrappers[w];
      if w !in ivars {
        if stack == 0 {
          return Err(StackExhausted);
        }
        var container;
        if def.container in cls.methods || def.container in own {
          container := PublicSend(def.container, own, stack - 1);
        } else {
          var subj := PublicSend("subject", own, stack - 1);
          container := if subj.Err? then subj else Call(subj.value, def.container);
        }
        if container.Err? {
          return container;
        }
        ivars := ivars[w := def.build(ivars, container.value)];
      }
      r := Ok(Decorate(ivars[w], def.presenter));
    }

    /** `json_fields`: computed from the public methods on the first call
        and returned unchanged by every later one. */
    method JsonFields(publicMethods: seq<Symbol>) returns (fields: seq<Symbol>)
      requires Valid()
      modifies this
      ensures Valid()
      ensures fields == Fields(old(jsonFields), publicMethods) && jsonFields == Some(fields)
      ensures ivars == old(ivars)
    {
      if jsonFields.None? {
        var fs := publicMethods;
        fs := Without(fs, "subject");
        jsonFields := Some(fs);
      }
      fields := jsonFields.value;
    }

    /** `to_hash` (and its alias `to_h`): `[field, public_send(field)]`
        for each JSON field, in order, made into a hash. */
    method ToHash(publicMethods: seq<Symbol>, own: map<Symbol, Value>, stack: nat) returns (r: Result<Table<Symbol, Value>>)
      requires Valid()
      modifies this
      ensures Valid()
      ensures jsonFields == Some(Fields(old(jsonFields), publicMethods))
      ensures (r, ivars) == JsonPresenter.ToHash(cls.View(), own, stack, old(ivars), jsonFields.value)
      ensures r.Ok? ==> "subject" !in r.value.keys
    {
      var fields := JsonFields(publicMethods);
      ghost var shape, s0 := cls.View(), ivars;
      var vs: seq<Value> := [];
      for i := 0 to |fields|
        invariant jsonFields == Some(fields)
        invariant Calls(shape, own, stack, s0, fields[..i]) == (Ok(vs), ivars)
      {
        ghost var before := ivars;
        CallsNext(shape, own, stack, s0, fields, i, vs, before);
        var v := PublicSend(fields[i], own, stack);
        if v.Err? {
          CallsStops(shape, own, stack, s0, fields, i + 1);
          return Err(v.error);
        }
        vs := vs + [v.value];
      }
      assert fields[..|fields|] == fields;
      r := Ok(FromPairs(Zip(fields, vs)));
      if "subject" in r.value.keys {
        ToHashKeysAreFields(shape, own, stack, s0, fields, "subject");
      }
    }
  }
}
