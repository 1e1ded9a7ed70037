/** What an instance does with its class's declarations: binding subjects
    to slots, resolving a proxied message, decorating a value with a nested
    presenter, and sending a public message through the generated accessors
    and the cached wrapper objects. */
module Resolution {
  import opened Values
  import opened OrderedTables
  import opened Declaration

  // ---------------------------------------------------------------------
  // initialize and map

  /** `subjects[index]`: a missing argument is nil. */
  function ArgAt(args: seq<Value>, i: nat): (v: Value)
    ensures i < |args| ==> v == args[i]
    ensures i >= |args| ==> v == Nil
  {
    if i < |args| then args[i] else Nil
  }

  /** The instance variables `initialize(*args)` sets: each slot in order
      to the argument at its position, so that a repeated slot name keeps
      the later argument. */
  function Bind(slots: seq<Symbol>, args: seq<Value>): (s: State)
    ensures s.Keys == set k | k in slots
  {
    if slots == [] then map[]
    else
      var n := |slots| - 1;
      Bind(slots[..n], args)[slots[n] := ArgAt(args, n)]
  }

  /** Slot `i` holds argument `i`, or nil when fewer arguments were given,
      provided no later slot has the same name. */
  lemma {:induction false} BindSlot(slots: seq<Symbol>, args: seq<Value>, i: nat)
    requires i < |slots|
    requires forall j :: i < j < |slots| ==> slots[j] != slots[i]
    ensures slots[i] in Bind(slots, args) && Bind(slots, args)[slots[i]] == ArgAt(args, i)
  {
    var n := |slots| - 1;
    if i < n {
      assert slots[..n][i] == slots[i];
      BindSlot(slots[..n], args, i);
    }
  }

  /** With distinct slot names, the i-th slot is bound to the i-th argument
      and slots beyond the arguments to nil. */
  lemma {:induction false} BindSlots(slots: seq<Symbol>, args: seq<Value>)
    requires Distinct(slots)
    ensures forall i :: 0 <= i < |slots| ==> Bind(slots, args)[slots[i]] == ArgAt(args, i)
    ensures forall i :: |args| <= i < |slots| ==> Bind(slots, args)[slots[i]] == Nil
  {
    forall i | 0 <= i < |slots| ensures Bind(slots, args)[slots[i]] == ArgAt(args, i) {
      BindSlot(slots, args, i);
    }
  }

  /** `*items` as `new(*items)` spreads one element of the collection: an
      array gives its elements, nil gives none, anything else itself. */
  function Splat(v: Value): (r: seq<Value>)
    ensures v.List? ==> r == v.items
    ensures v.Nil? ==> r == []
    ensures !v.Nil? && !v.List? ==> r == [v]
  {
    match v
    case Nil => []
    case List(xs) => xs
    case _ => [v]
  }

  /** `map(collection)`: one presenter instance per element, in order. */
  function Map(presenter: PresenterName, collection: seq<Value>): (r: seq<Value>)
    ensures |r| == |collection|
    ensures forall i :: 0 <= i < |r| ==> r[i] == Presented(presenter, Splat(collection[i]))
  {
    if collection == [] then []
    else [Presented(presenter, Splat(collection[0]))] + Map(presenter, collection[1..])
  }

  /** Mapping a concatenation maps each part. */
  lemma {:induction false} MapAppend(presenter: PresenterName, a: seq<Value>, b: seq<Value>)
    ensures Map(presenter, a + b) == Map(presenter, a) + Map(presenter, b)
  {
  }

  /** The instance `map` builds for element `i` of a collection of arrays
      binds slot `j` to the j-th item of that array: the items are
      positional subjects. */
  lemma MapBinds(presenter: PresenterName, slots: seq<Symbol>, collection: seq<Value>, i: nat, j: nat)
    requires Distinct(slots) && i < |collection| && j < |slots|
    requires collection[i].List?
    ensures Bind(slots, Map(presenter, collection)[i].subjects)[slots[j]] == ArgAt(collection[i].items, j)
  {
    BindSlots(slots, collection[i].items);
  }

  /** An element that is not an array is the primary subject of its
      instance; nil leaves every slot nil. */
  lemma MapBindsPrimary(presenter: PresenterName, slots: seq<Symbol>, collection: seq<Value>, i: nat)
    requires Distinct(slots) && slots != [] && i < |collection|
    requires !collection[i].List?
    ensures var s := Bind(slots, Map(presenter, collection)[i].subjects);
      && s[slots[0]] == collection[i]
      && forall j :: 0 < j < |slots| ==> s[slots[j]] == Nil
  {
    BindSlots(slots, Map(presenter, collection)[i].subjects);
  }

  // ---------------------------------------------------------------------
  // proxy_message and decorate_with_presenter

  /** The object `proxy_message` sends the method to: the instance
      variable named by the container, or the first slot's when there is
      no container; when that is falsy and the container is not a slot
      name, what the primary subject returns for the container. */
  function Target(slots: seq<Symbol>, s: State, container: Option<Symbol>): (r: Result<Value>)
    requires slots != []
    ensures container.None? ==> r == Ok(Ivar(s, slots[0]))
    ensures container.Some? && container.value in slots ==> r == Ok(Ivar(s, container.value))
    ensures container.Some? && Truthy(Ivar(s, container.value)) ==> r == Ok(Ivar(s, container.value))
    ensures container.Some? && container.value !in slots && !Truthy(Ivar(s, container.value)) ==>
              r == Call(Ivar(s, slots[0]), container.value)
  {
    var name := container.GetOr(slots[0]);
    var direct := Ivar(s, name);
    if Truthy(direct) || name in slots then Ok(direct)
    else Call(Ivar(s, slots[0]), name)
  }

  /** `proxy_message(container, message)`: the target's answer to the
      message when it responds to it, and nil rather than an error when it
      does not; only deriving the target or a value whose methods are not
      modelled can fail. */
  function ProxyMessage(slots: seq<Symbol>, s: State, container: Option<Symbol>, message: Symbol): (r: Result<Value>)
    requires slots != []
    ensures var t := Target(slots, s, container);
      t.Ok? && t.value.Obj? ==>
        r == Ok(if message in t.value.methods then t.value.methods[message] else Nil)
    ensures Target(slots, s, container) == Ok(Nil) ==> r == Ok(Nil)
    ensures var t := Target(slots, s, container);
      r.Err? ==> t.Err? || !(t.value.Nil? || t.value.Obj?)
  {
    match Target(slots, s, container)
    case Err(f) => Err(f)
    case Ok(t) =>
      match RespondTo(t, message)
      case Err(f) => Err(f)
      case Ok(responds) => if responds then Call(t, message) else Ok(Nil)
  }

  /** A nested presenter instance is never its own subject. */
  lemma PresentedDiffers(p: PresenterName, v: Value)
    ensures Presented(p, [v]) != v
  {
    assert v in [v];
  }

  /** `decorate_with_presenter(value, presenter)`: the value changes
      exactly when it is present and a presenter is given. */
  function Decorate(value: Value, presenter: Option<PresenterName>): (r: Value)
    ensures r != value <==> Present(value) && presenter.Some?
    ensures Present(value) && presenter.Some? ==> r == Presented(presenter.value, [value])
  {
    if Present(value) && presenter.Some? then
      PresentedDiffers(presenter.value, value);
      Presented(presenter.value, [value])
    else value
  }

  // ---------------------------------------------------------------------
  // public_send

  /** `public_send(name)` on an instance whose class has the shape `shape`,
      whose hand-written public methods answer as `own` says, and whose
      instance variables are `s`: the answer and the instance variables
      afterwards. `stack` bounds the nesting of calls, as Ruby's stack
      does. */
  function Dispatch(shape: Shape, own: map<Symbol, Value>, stack: nat, s: State, name: Symbol): (r: (Result<Value>, State))
    requires shape.slots != []
    ensures name !in shape.methods ==> r == (if name in own then Ok(own[name]) else Err(NoMethodError(name)), s)
    ensures name in shape.methods && !shape.methods[name].Delegate? ==> r.1 == s
    decreases stack, 1
  {
    if name in shape.methods then
      match shape.methods[name]
      case Reader(iv) => (Ok(Ivar(s, iv)), s)
      case Proxy(c, attr, p) =>
        (match ProxyMessage(shape.slots, s, c, attr)
           case Err(f) => (Err(f), s)
           case Ok(v) => (Ok(Decorate(v, p)), s))
      case Delegate(w, attr) =>
        if w !in shape.wrappers then (Err(NoMethodError(w)), s)
        else
          var (r, s1) := WrapperCall(shape, own, stack, s, w);
          match r
          case Err(f) => (Err(f), s1)
          case Ok(target) => if target.Nil? then (Err(DelegationError(attr)), s1) else (Call(target, attr), s1)
    else if name in own then (Ok(own[name]), s)
    else (Err(NoMethodError(name)), s)
  }

  /** The wrapper method `w`: the cached object when its instance variable
      is set; otherwise the container (the instance's own public method
      when it responds to it, else the `subject` reader's answer to it),
      the block's object built from it and stored, decorated. */
  function WrapperCall(shape: Shape, own: map<Symbol, Value>, stack: nat, s: State, w: Symbol): (r: (Result<Value>, State))
    requires shape.slots != [] && w in shape.wrappers
    ensures w in s ==> r == (Ok(Decorate(s[w], shape.wrappers[w].presenter)), s)
    ensures r.0.Ok? ==> w in r.1 && r.0.value == Decorate(r.1[w], shape.wrappers[w].presenter)
    decreases stack, 0
  {
    var def := shape.wrappers[w];
    if w in s then (Ok(Decorate(s[w], def.presenter)), s)
    else if stack == 0 then (Err(StackExhausted), s)
    else
      var (cr, s1) :=
        if def.container in shape.methods || def.container in own then
          Dispatch(shape, own, stack - 1, s, def.container)
        else
          var (sr, s1) := Dispatch(shape, own, stack - 1, s, "subject");
          (match sr
           case Err(f) => (Err(f), s1)
           case Ok(subj) => (Call(subj, def.container), s1));
      match cr
      case Err(f) => (Err(f), s1)
      case Ok(container) =>
        var built := def.build(s1, container);
        (Ok(Decorate(built, def.presenter)), s1[w := built])
  }

  /** A call never unsets or changes an instance variable that is set: the
      state only gains wrapper caches. */
  lemma {:induction false} DispatchKeeps(shape: Shape, own: map<Symbol, Value>, stack: nat, s: State, name: Symbol)
    requires shape.slots != []
    ensures forall k :: k in s ==> k in Dispatch(shape, own, stack, s, name).1 && Dispatch(shape, own, stack, s, name).1[k] == s[k]
    decreases stack, 1
  {
    if name in shape.methods && shape.methods[name].Delegate? && shape.methods[name].wrapper in shape.wrappers {
      WrapperKeeps(shape, own, stack, s, shape.methods[name].wrapper);
    }
  }

  lemma {:induction false} WrapperKeeps(shape: Shape, own: map<Symbol, Value>, stack: nat, s: State, w: Symbol)
    requires shape.slots != [] && w in shape.wrappers
    ensures forall k :: k in s ==> k in WrapperCall(shape, own, stack, s, w).1 && WrapperCall(shape, own, stack, s, w).1[k] == s[k]
    decreases stack, 0
  {
    var def := shape.wrappers[w];
    if w !in s && stack > 0 {
      if def.container in shape.methods || def.container in own {
        DispatchKeeps(shape, own, stack - 1, s, def.container);
      } else {
        DispatchKeeps(shape, own, stack - 1, s, "subject");
      }
    }
  }

  /** Once the wrapper object has been built, every later call of the
      wrapper, at any depth, returns the same decorated object and changes
      nothing: the block runs at most once per instance. */
  lemma WrapperCached(shape: Shape, own: map<Symbol, Value>, stack: nat, s: State, w: Symbol, later: nat)
    requires shape.slots != [] && w in shape.wrappers
    requires WrapperCall(shape, own, stack, s, w).0.Ok?
    ensures var (r, s1) := WrapperCall(shape, own, stack, s, w);
      w in s1 && WrapperCall(shape, own, later, s1, w) == (r, s1)
  {
  }

  /** The cache survives any public call made in between: a wrapper call
      after it still returns the object built the first time. */
  lemma WrapperCachedAcross(shape: Shape, own: map<Symbol, Value>, stack: nat, s: State, w: Symbol,
                            between: nat, name: Symbol, later: nat)
    requires shape.slots != [] && w in shape.wrappers
    requires WrapperCall(shape, own, stack, s, w).0.Ok?
    ensures var (r, s1) := WrapperCall(shape, own, stack, s, w);
      var s2 := Dispatch(shape, own, between, s1, name).1;
      WrapperCall(shape, own, later, s2, w) == (r, s2)
  {
    var (r, s1) := WrapperCall(shape, own, stack, s, w);
    WrapperCached(shape, own, stack, s, w, later);
    DispatchKeeps(shape, own, between, s1, name);
  }

  /** On a miss, when the instance has no public method named like the
      container and `subject` is the plain slot reader, the container is
      sent to `@subject`: the block's object is built from that answer,
      cached and returned decorated, and an error from that send is
      returned as it is. */
  lemma WrapperViaSubject(shape: Shape, own: map<Symbol, Value>, stack: nat, s: State, w: Symbol)
    requires shape.slots != [] && w in shape.wrappers
    requires w !in s && stack > 0
    requires shape.wrappers[w].container !in shape.methods && shape.wrappers[w].container !in own
    requires "subject" in shape.methods && shape.methods["subject"] == Reader("subject")
    ensures var def := shape.wrappers[w];
      match Call(Ivar(s, "subject"), def.container)
      case Err(f) => WrapperCall(shape, own, stack, s, w) == (Err(f), s)
      case Ok(c) =>
        WrapperCall(shape, own, stack, s, w) ==
          (Ok(Decorate(def.build(s, c), def.presenter)), s[w := def.build(s, c)])
  {
  }
}
