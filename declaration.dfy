/** What `expose` and `subjects` record about a presenter class: the options
    of a declaration, the output name it produces, the attribute table and
    the table of public accessors generated for it. */
module Declaration {
  import opened Values
  import opened OrderedTables

  /** The options hash given to `expose`; `None` stands for an absent key. */
  datatype Options = Options(
    container: Option<Symbol>,        // :with
    alias: Option<Symbol>,            // :as
    prefix: Option<bool>,             // :prefix
    presenter: Option<PresenterName>, // :presenter
    serializable: Option<bool>)       // :serializable

  const NoOptions: Options := Options(None, None, None, None, None)

  /** A value of the attribute table: `[attr_name, options]`. */
  datatype Entry = Entry(attr: Symbol, options: Options)

  /** `options.fetch(:serializable, false)` is truthy. */
  predicate Serializable(o: Options)
    ensures Serializable(o) ==> o.serializable.Some? && o.serializable.value
  {
    o.serializable == Some(true)
  }

  /** `container if options.fetch(:prefix, true)`. */
  function MethodPrefix(o: Options): (r: Option<Symbol>)
    ensures r.None? <==> o.container.None? || o.prefix == Some(false)
    ensures r.Some? ==> r == o.container
  {
    if o.prefix != Some(false) then o.container else None
  }

  /** `[method_prefix, options.fetch(:as, attr_name)].compact.join('_')`. */
  function OutputName(attr: Symbol, o: Options): (r: Symbol)
    ensures MethodPrefix(o).None? ==> r == o.alias.GetOr(attr)
  {
    var base := o.alias.GetOr(attr);
    match MethodPrefix(o)
    case None => base
    case Some(p) => p + "_" + base
  }

  /** The attribute-table key an entry is written under. */
  function KeyFor(e: Entry): (k: Symbol)
    ensures Serializable(e.options) ==> k == e.attr
    ensures !Serializable(e.options) ==> k == OutputName(e.attr, e.options)
  {
    if Serializable(e.options) then e.attr else OutputName(e.attr, e.options)
  }

  /** Every entry of the table sits under the key its own declaration gives. */
  ghost predicate WellKeyed(t: Table<Symbol, Entry>) {
    KeyedBy(t, KeyFor)
  }

  /** `container.present?`, for a symbol. */
  predicate ContainerPresent(o: Options)
    ensures ContainerPresent(o) ==> o.container.Some? && |o.container.value| > 0
  {
    o.container.Some? && o.container.value != ""
  }

  /** The block of a block-form `expose`, evaluated in the instance and sent
      `new(object_container)`: given the instance's variables and the
      container object, the wrapper object it builds. */
  type Factory = (State, Value) -> Value

  /** A generated public instance method. */
  datatype Accessor =
      /** `attr_reader`. */
    | Reader(ivar: Symbol)
      /** The `class_eval` accessor: `proxy_message(container, attr)` then
          `decorate_with_presenter(value, presenter)`. */
    | Proxy(container: Option<Symbol>, attr: Symbol, presenter: Option<PresenterName>)
      /** `delegate attr, to: wrapper`. */
    | Delegate(wrapper: Symbol, attr: Symbol)

  /** The private wrapper method of a block-form `expose`. */
  datatype WrapperDef = WrapperDef(container: Symbol, build: Factory, presenter: Option<PresenterName>)

  /** What an instance sees of its class: the slot names and the generated
      public and wrapper methods. */
  datatype Shape = Shape(slots: seq<Symbol>, methods: map<Symbol, Accessor>, wrappers: map<Symbol, WrapperDef>)

  /** Every delegating accessor has its wrapper method. */
  ghost predicate DelegatesBacked(methods: map<Symbol, Accessor>, wrappers: map<Symbol, WrapperDef>) {
    forall k :: k in methods && methods[k].Delegate? ==> methods[k].wrapper in wrappers
  }

  /** `names.join(sep)`. */
  function Join(names: seq<Symbol>, sep: string): (r: string)
    ensures names == [] ==> r == ""
    ensures names != [] ==> |names[0]| <= |r| && r[..|names[0]|] == names[0]
    ensures |names| == 1 ==> r == names[0]
  {
    if names == [] then ""
    else if |names| == 1 then names[0]
    else names[0] + sep + Join(names[1..], sep)
  }

  /** `"#{ attrs.join('_') }_wrapper"`. */
  function WrapperName(attrs: seq<Symbol>): (r: Symbol)
    ensures |r| >= 8 && r[|r| - 8..] == "_wrapper"
    ensures |attrs| == 1 ==> r == attrs[0] + "_wrapper"
  {
    Join(attrs, "_") + "_wrapper"
  }

  /** The wrapper method a call of `expose` defines, if it has a block and a
      present container. */
  function WrapperFor(attrs: seq<Symbol>, o: Options, hasBlock: bool): (r: Option<Symbol>)
    ensures r.Some? <==> hasBlock && ContainerPresent(o)
    ensures r.Some? ==> r.value == WrapperName(attrs)
  {
    if hasBlock && ContainerPresent(o) then Some(WrapperName(attrs)) else None
  }

  /** The method ActiveSupport's `delegate attr, to: wrapper, prefix: prefixed`
      defines. */
  function DelegateName(wrapper: Symbol, attr: Symbol, prefixed: bool): (r: Symbol)
    ensures !prefixed ==> r == attr
  {
    if prefixed then wrapper + "_" + attr else attr
  }

  /** The output name ends with the alias, or with the attribute name
      when there is no alias, and starts with `prefix_` when prefixed. */
  lemma OutputNameShape(attr: Symbol, o: Options)
    ensures var base := o.alias.GetOr(attr); var r := OutputName(attr, o);
      |base| <= |r| && r[|r| - |base|..] == base
    ensures var r := OutputName(attr, o);
      MethodPrefix(o).Some? ==>
        |MethodPrefix(o).value| < |r| && r[..|MethodPrefix(o).value| + 1] == MethodPrefix(o).value + "_"
    ensures MethodPrefix(o).Some? ==>
      |OutputName(attr, o)| == |MethodPrefix(o).value| + 1 + |o.alias.GetOr(attr)|
  {
  }

  /** The delegated method ends with the attribute name and starts with
      `wrapper_` when prefixed. */
  lemma DelegateNameShape(wrapper: Symbol, attr: Symbol, prefixed: bool)
    ensures var r := DelegateName(wrapper, attr, prefixed); |attr| <= |r| && r[|r| - |attr|..] == attr
    ensures var r := DelegateName(wrapper, attr, prefixed);
      prefixed ==> |wrapper| < |r| && r[..|wrapper| + 1] == wrapper + "_"
    ensures prefixed ==> |DelegateName(wrapper, attr, prefixed)| == |wrapper| + 1 + |attr|
  {
  }

  /** The `class_eval` accessor of an entry: it proxies the attribute
      through the entry's container and decorates with its presenter. */
  function ProxyOf(e: Entry): (a: Accessor)
    ensures a.Proxy? && a.attr == e.attr
    ensures a.container == e.options.container && a.presenter == e.options.presenter
  {
    Proxy(e.options.container, e.attr, e.options.presenter)
  }

  // ---------------------------------------------------------------------
  // The attribute table

  /** The entries one `expose` writes, one per attribute name. */
  function EntriesFor(attrs: seq<Symbol>, o: Options): (es: seq<Entry>)
    ensures |es| == |attrs|
    ensures forall i :: 0 <= i < |attrs| ==> es[i] == Entry(attrs[i], o)
  {
    seq(|attrs|, i requires 0 <= i < |attrs| => Entry(attrs[i], o))
  }

  /** Writing the entries in order: `attributes[key] = [attr_name, options]`
      for each. */
  function Replay(t: Table<Symbol, Entry>, es: seq<Entry>): (r: Table<Symbol, Entry>)
    requires t.Valid()
    ensures r.Valid()
    ensures WellKeyed(t) ==> WellKeyed(r)
    ensures |t.keys| <= |r.keys| <= |t.keys| + |es| && r.keys[..|t.keys|] == t.keys
  {
    PutAll(t, es, KeyFor)
  }

  /** The attribute table after `expose(*attrs, options)`. */
  function Declare(t: Table<Symbol, Entry>, attrs: seq<Symbol>, o: Options): (r: Table<Symbol, Entry>)
    requires t.Valid()
    ensures r.Valid()
    ensures WellKeyed(t) ==> WellKeyed(r)
    ensures |t.keys| <= |r.keys| <= |t.keys| + |attrs| && r.keys[..|t.keys|] == t.keys
  {
    Replay(t, EntriesFor(attrs, o))
  }

  /** Writing one more entry is exposing its attribute name alone with its
      own options: the step `inherited` takes per entry. */
  lemma {:induction false} ReplayStep(t: Table<Symbol, Entry>, es: seq<Entry>, i: nat)
    requires t.Valid() && i < |es|
    ensures Replay(t, es[..i + 1]) == Declare(Replay(t, es[..i]), [es[i].attr], es[i].options)
  {
    ReplayNext(t, es, i);
    var x := Replay(t, es[..i]);
    var one := EntriesFor([es[i].attr], es[i].options);
    assert one == [es[i]];
    assert one[..0] == [];
    assert PutAll(x, one[..0], KeyFor) == x;
    assert PutAll(x, one, KeyFor) == PutAll(x, one[..0], KeyFor).Put(KeyFor(es[i]), es[i]);
  }

  /** The fold over a prefix, one entry further. */
  lemma ReplayNext(t: Table<Symbol, Entry>, es: seq<Entry>, i: nat)
    requires t.Valid() && i < |es|
    ensures Replay(t, es[..i + 1]) == Replay(t, es[..i]).Put(KeyFor(es[i]), es[i])
  {
    assert es[..i + 1][..i] == es[..i];
  }

  /** Exposing one name writes one entry. */
  lemma DeclareOne(t: Table<Symbol, Entry>, attr: Symbol, o: Options)
    requires t.Valid()
    ensures Declare(t, [attr], o) == t.Put(KeyFor(Entry(attr, o)), Entry(attr, o))
  {
    var one := EntriesFor([attr], o);
    assert one == [Entry(attr, o)];
    assert one[..0] == [];
    assert PutAll(t, one[..0], KeyFor) == t;
  }

  /** The keys one `expose` writes, in order. */
  function DeclaredKeys(attrs: seq<Symbol>, o: Options): seq<Symbol> {
    KeysBy(EntriesFor(attrs, o), KeyFor)
  }

  /** Exposing names whose keys are distinct and new appends exactly those
      keys, in order, each holding `[attr_name, options]`: N distinct names
      give N new entries. */
  lemma DeclareAppends(t: Table<Symbol, Entry>, attrs: seq<Symbol>, o: Options)
    requires t.Valid()
    requires Distinct(DeclaredKeys(attrs, o))
    requires forall k :: k in DeclaredKeys(attrs, o) ==> k !in t.keys
    ensures Declare(t, attrs, o).keys == t.keys + DeclaredKeys(attrs, o)
    ensures |Declare(t, attrs, o).keys| == |t.keys| + |attrs|
    ensures forall i :: 0 <= i < |attrs| ==>
              Declare(t, attrs, o).values[DeclaredKeys(attrs, o)[i]] == Entry(attrs[i], o)
  {
    var es := EntriesFor(attrs, o);
    PutAllAppends(t, es, KeyFor);
    PutAllHoldsAll(t, es, KeyFor);
  }

  /** Exposing names whose keys are all present replaces their values and
      does not grow the table or move any key. */
  lemma DeclareOverwrites(t: Table<Symbol, Entry>, attrs: seq<Symbol>, o: Options)
    requires t.Valid()
    requires forall k :: k in DeclaredKeys(attrs, o) ==> k in t.keys
    ensures Declare(t, attrs, o).keys == t.keys
    ensures forall i :: 0 <= i < |attrs| ==> DeclaredKeys(attrs, o)[i] in Declare(t, attrs, o).values
    ensures forall i :: 0 <= i < |attrs| && LastWith(DeclaredKeys(attrs, o), i) ==>
              Declare(t, attrs, o).values[DeclaredKeys(attrs, o)[i]] == Entry(attrs[i], o)
  {
    var es := EntriesFor(attrs, o);
    var ks := DeclaredKeys(attrs, o);
    assert forall i :: 0 <= i < |es| ==> KeyFor(es[i]) == ks[i];
    PutAllOverwrites(t, es, KeyFor);
    forall i | 0 <= i < |attrs| && LastWith(ks, i)
      ensures Declare(t, attrs, o).values[ks[i]] == Entry(attrs[i], o)
    {
      PutAllHolds(t, es, KeyFor, i);
    }
  }

  /** No later position of `ks` repeats the key at position `i`. */
  predicate LastWith(ks: seq<Symbol>, i: nat)
    requires i < |ks|
  {
    forall j :: i < j < |ks| ==> ks[j] != ks[i]
  }

  /** A serializable `expose` keys each entry by its raw attribute name. */
  lemma SerializableKeys(attrs: seq<Symbol>, o: Options)
    requires Serializable(o)
    ensures DeclaredKeys(attrs, o) == attrs
  {
  }

  /** Replaying a well-keyed table's entries, in its order, into an empty
      table rebuilds it exactly: same keys, same order, same values. */
  lemma ReplayReproduces(src: Table<Symbol, Entry>)
    requires src.Valid() && WellKeyed(src)
    ensures Replay(Empty(), ValuesInOrder(src)) == src
  {
    PutAllReproduces(src, KeyFor);
  }

  // ---------------------------------------------------------------------
  // The public accessor table

  /** The name of the public method a non-serializable entry generates. */
  function AccessorName(e: Entry, wrapper: Option<Symbol>): (r: Symbol)
    ensures wrapper.None? ==> r == OutputName(e.attr, e.options)
    ensures wrapper.Some? ==> r == DelegateName(wrapper.value, e.attr, MethodPrefix(e.options).Some?)
  {
    match wrapper
    case None => OutputName(e.attr, e.options)
    case Some(w) => DelegateName(w, e.attr, MethodPrefix(e.options).Some?)
  }

  /** The accessor a non-serializable entry generates: a delegation to the
      wrapper when the call defined one, otherwise the proxy accessor. */
  function AccessorOf(e: Entry, wrapper: Option<Symbol>): (a: Accessor)
    ensures wrapper.None? ==> a == ProxyOf(e)
    ensures wrapper.Some? ==> a == Delegate(wrapper.value, e.attr)
  {
    match wrapper
    case None => ProxyOf(e)
    case Some(w) => Delegate(w, e.attr)
  }

  /** The names the entries generate accessors under. */
  ghost function AccessorNames(es: seq<Entry>, wrapper: Option<Symbol>): set<Symbol> {
    set i | 0 <= i < |es| && !Serializable(es[i].options) :: AccessorName(es[i], wrapper)
  }

  /** The accessor one declared attribute generates: nothing when
      serializable, a delegation when the call defined a wrapper, otherwise
      a proxy accessor under the output name. */
  function Generated(m: map<Symbol, Accessor>, e: Entry, wrapper: Option<Symbol>): (r: map<Symbol, Accessor>)
    ensures Serializable(e.options) ==> r == m
    ensures !Serializable(e.options) ==> r.Keys == m.Keys + {AccessorName(e, wrapper)}
    ensures !Serializable(e.options) ==> r[AccessorName(e, wrapper)] == AccessorOf(e, wrapper)
    ensures forall k :: k in m && (Serializable(e.options) || k != AccessorName(e, wrapper)) ==> r[k] == m[k]
  {
    if Serializable(e.options) then m
    else
      match wrapper
      case None => m[OutputName(e.attr, e.options) := ProxyOf(e)]
      case Some(w) => m[DelegateName(w, e.attr, MethodPrefix(e.options).Some?) := Delegate(w, e.attr)]
  }

  /** The accessors `expose` generates for its entries, in order. What it
      adds and what it keeps is stated by `GenerateDefines` and
      `GenerateTouches`. */
  function Generate(m: map<Symbol, Accessor>, es: seq<Entry>, wrapper: Option<Symbol>): (r: map<Symbol, Accessor>)
    ensures m.Keys <= r.Keys
  {
    if es == [] then m
    else Generated(Generate(m, es[..|es| - 1], wrapper), es[|es| - 1], wrapper)
  }

  /** Generating accessors adds or changes only the names the entries
      generate; every other public method is left as it was. */
  lemma {:induction false} GenerateTouches(m: map<Symbol, Accessor>, es: seq<Entry>, wrapper: Option<Symbol>)
    ensures Generate(m, es, wrapper).Keys <= m.Keys + AccessorNames(es, wrapper)
    ensures forall k :: k in m && k !in AccessorNames(es, wrapper) ==> Generate(m, es, wrapper)[k] == m[k]
  {
    if es != [] {
      var n := |es| - 1;
      GenerateTouches(m, es[..n], wrapper);
      assert AccessorNames(es[..n], wrapper) <= AccessorNames(es, wrapper) by {
        forall k | k in AccessorNames(es[..n], wrapper) ensures k in AccessorNames(es, wrapper) {
          var i :| 0 <= i < n && !Serializable(es[..n][i].options) && k == AccessorName(es[..n][i], wrapper);
          assert es[..n][i] == es[i];
        }
      }
      assert !Serializable(es[n].options) ==> AccessorName(es[n], wrapper) in AccessorNames(es, wrapper);
    }
  }

  /** No entry after position `i` that generates an accessor reuses the
      name entry `i` generates. */
  ghost predicate LastNamed(es: seq<Entry>, wrapper: Option<Symbol>, i: nat)
    requires i < |es|
  {
    forall j :: i < j < |es| && !Serializable(es[j].options) ==>
      AccessorName(es[j], wrapper) != AccessorName(es[i], wrapper)
  }

  /** An entry whose accessor name no later entry generates again ends up
      defined with its own accessor. */
  lemma {:induction false} GenerateDefines(m: map<Symbol, Accessor>, es: seq<Entry>, wrapper: Option<Symbol>, i: nat)
    requires i < |es| && !Serializable(es[i].options)
    requires LastNamed(es, wrapper, i)
    ensures AccessorName(es[i], wrapper) in Generate(m, es, wrapper)
    ensures Generate(m, es, wrapper)[AccessorName(es[i], wrapper)] == AccessorOf(es[i], wrapper)
  {
    var n := |es| - 1;
    if i < n {
      LastNamedPrefix(es, wrapper, i);
      GenerateDefines(m, es[..n], wrapper, i);
      GenerateKeeps(m, es, wrapper, AccessorName(es[i], wrapper));
    }
  }

  lemma LastNamedPrefix(es: seq<Entry>, wrapper: Option<Symbol>, i: nat)
    requires i < |es| - 1 && LastNamed(es, wrapper, i)
    ensures es[..|es| - 1][i] == es[i] && LastNamed(es[..|es| - 1], wrapper, i)
  {
    var init := es[..|es| - 1];
    forall j | i < j < |init| && !Serializable(init[j].options)
      ensures AccessorName(init[j], wrapper) != AccessorName(init[i], wrapper)
    {
      assert init[j] == es[j];
    }
  }

  /** One more entry keeps what a name it does not generate was defined as. */
  lemma GenerateKeeps(m: map<Symbol, Accessor>, es: seq<Entry>, wrapper: Option<Symbol>, name: Symbol)
    requires es != [] && name in Generate(m, es[..|es| - 1], wrapper)
    requires Serializable(es[|es| - 1].options) || AccessorName(es[|es| - 1], wrapper) != name
    ensures name in Generate(m, es, wrapper)
    ensures Generate(m, es, wrapper)[name] == Generate(m, es[..|es| - 1], wrapper)[name]
  {
    assert Generate(m, es, wrapper) == Generated(Generate(m, es[..|es| - 1], wrapper), es[|es| - 1], wrapper);
  }

  /** `w + "_" + a` determines `a`. */
  lemma PrefixedInjective(w: Symbol, a: Symbol, b: Symbol)
    requires w + "_" + a == w + "_" + b
    ensures a == b
  {
    assert a == (w + "_" + a)[|w| + 1..];
    assert b == (w + "_" + b)[|w| + 1..];
  }

  /** The last non-serializable entry, from `i` on, that generates the
      same accessor name as entry `i`. */
  lemma LastNamedFrom(es: seq<Entry>, wrapper: Option<Symbol>, i: nat) returns (k: nat)
    requires i < |es| && !Serializable(es[i].options)
    ensures i <= k < |es| && !Serializable(es[k].options)
    ensures AccessorName(es[k], wrapper) == AccessorName(es[i], wrapper)
    ensures LastNamed(es, wrapper, k)
  {
    k := |es| - 1;
    while Serializable(es[k].options) || AccessorName(es[k], wrapper) != AccessorName(es[i], wrapper)
      invariant i <= k < |es|
      invariant forall j :: k < j < |es| && !Serializable(es[j].options) ==>
        AccessorName(es[j], wrapper) != AccessorName(es[i], wrapper)
      decreases k
    {
      k := k - 1;
    }
  }

  /** A block-form `expose` of non-serializable names delegates each name
      to the wrapper under its delegate name; a repeated name is
      delegated once. */
  lemma BlockExposeDelegates(m: map<Symbol, Accessor>, attrs: seq<Symbol>, o: Options, w: Symbol, i: nat)
    requires !Serializable(o) && i < |attrs|
    ensures var name := DelegateName(w, attrs[i], MethodPrefix(o).Some?);
      name in Generate(m, EntriesFor(attrs, o), Some(w)) &&
      Generate(m, EntriesFor(attrs, o), Some(w))[name] == Delegate(w, attrs[i])
  {
    var es := EntriesFor(attrs, o);
    var k := LastNamedFrom(es, Some(w), i);
    if MethodPrefix(o).Some? {
      PrefixedInjective(w, attrs[k], attrs[i]);
    }
    GenerateDefines(m, es, Some(w), k);
  }

  /** A block-less `expose` of one non-serializable name adds its proxy
      accessor under its output name and changes nothing else. */
  lemma ExposeOneProxy(m: map<Symbol, Accessor>, attr: Symbol, o: Options)
    requires !Serializable(o)
    ensures Generate(m, EntriesFor([attr], o), None) == m[OutputName(attr, o) := ProxyOf(Entry(attr, o))]
  {
    assert EntriesFor([attr], o) == [Entry(attr, o)];
    assert [Entry(attr, o)][..0] == [];
  }

  /** A serializable `expose` generates no accessor. */
  lemma {:induction false} SerializableGeneratesNothing(m: map<Symbol, Accessor>, attrs: seq<Symbol>, o: Options,
                                                        wrapper: Option<Symbol>)
    requires Serializable(o)
    ensures Generate(m, EntriesFor(attrs, o), wrapper) == m
  {
    var es := EntriesFor(attrs, o);
    assert AccessorNames(es, wrapper) == {};
    GenerateTouches(m, es, wrapper);
  }

  /** Defining more wrapper methods keeps every delegation backed. */
  lemma BackedGrows(m: map<Symbol, Accessor>, w0: map<Symbol, WrapperDef>, w1: map<Symbol, WrapperDef>)
    requires DelegatesBacked(m, w0) && w0.Keys <= w1.Keys
    ensures DelegatesBacked(m, w1)
  {
  }

  /** Generating accessors keeps every delegation backed by its wrapper,
      provided the wrapper they delegate to is defined. */
  lemma {:induction false} GenerateBacked(m: map<Symbol, Accessor>, es: seq<Entry>, wrapper: Option<Symbol>,
                                          wrappers: map<Symbol, WrapperDef>)
    requires DelegatesBacked(m, wrappers)
    requires wrapper.Some? ==> wrapper.value in wrappers
    ensures DelegatesBacked(Generate(m, es, wrapper), wrappers)
  {
    if es != [] {
      GenerateBacked(m, es[..|es| - 1], wrapper, wrappers);
    }
  }

  /** The fold over a prefix, one entry further. */
  lemma GenerateNext(m: map<Symbol, Accessor>, es: seq<Entry>, i: nat, wrapper: Option<Symbol>)
    requires i < |es|
    ensures Generate(m, es[..i + 1], wrapper) == Generated(Generate(m, es[..i], wrapper), es[i], wrapper)
  {
    assert es[..i + 1][..i] == es[..i];
  }

  /** Generating one more entry without a wrapper is what a block-less
      `expose` of its attribute name alone generates. */
  lemma {:induction false} GenerateStep(m: map<Symbol, Accessor>, es: seq<Entry>, i: nat)
    requires i < |es|
    ensures Generate(m, es[..i + 1], None) ==
      Generate(Generate(m, es[..i], None), EntriesFor([es[i].attr], es[i].options),
               WrapperFor([es[i].attr], es[i].options, false))
  {
    assert es[..i + 1][..i] == es[..i];
    assert EntriesFor([es[i].attr], es[i].options) == [es[i]];
    assert [es[i]][..0] == [];
  }

  /** The proxy accessors that replaying a table's entries generates, keyed
      by the table's own keys. */
  function ProxyTable(src: Table<Symbol, Entry>, n: nat): map<Symbol, Accessor>
    requires src.Valid() && n <= |src.keys|
  {
    map k | k in src.keys[..n] && !Serializable(src.values[k].options) :: ProxyOf(src.values[k])
  }

  lemma ProxyTableStep(src: Table<Symbol, Entry>, n: nat)
    requires src.Valid() && 0 < n <= |src.keys|
    ensures var k := src.keys[n - 1];
      ProxyTable(src, n) ==
        if Serializable(src.values[k].options) then ProxyTable(src, n - 1)
        else ProxyTable(src, n - 1)[k := ProxyOf(src.values[k])]
  {
  }

  lemma GeneratedWithoutWrapper(x: map<Symbol, Accessor>, e: Entry)
    ensures Generated(x, e, None) ==
      if Serializable(e.options) then x else x[KeyFor(e) := ProxyOf(e)]
  {
  }

  lemma UnionUpdate(a: map<Symbol, Accessor>, b: map<Symbol, Accessor>, k: Symbol, v: Accessor)
    ensures (a + b)[k := v] == a + b[k := v]
  {
  }

  lemma {:induction false} ReplayedAccessorsPrefix(m: map<Symbol, Accessor>, src: Table<Symbol, Entry>, n: nat)
    requires src.Valid() && WellKeyed(src) && n <= |src.keys|
    ensures Generate(m, ValuesInOrder(src)[..n], None) == m + ProxyTable(src, n)
  {
    if n == 0 {
      assert ProxyTable(src, 0) == map[];
      assert ValuesInOrder(src)[..0] == [];
    } else {
      ReplayedAccessorsPrefix(m, src, n - 1);
      ReplayedAccessorsNext(m, src, n);
    }
  }

  /** One more replayed entry adds its key's proxy to the union. */
  lemma ReplayedAccessorsNext(m: map<Symbol, Accessor>, src: Table<Symbol, Entry>, n: nat)
    requires src.Valid() && WellKeyed(src) && 0 < n <= |src.keys|
    requires Generate(m, ValuesInOrder(src)[..n - 1], None) == m + ProxyTable(src, n - 1)
    ensures Generate(m, ValuesInOrder(src)[..n], None) == m + ProxyTable(src, n)
  {
    var es := ValuesInOrder(src);
    var prev := Generate(m, es[..n - 1], None);
    GenerateNext(m, es, n - 1, None);
    var k := src.keys[n - 1];
    var e := es[n - 1];
    assert KeyFor(e) == k;
    ProxyTableStep(src, n);
    GeneratedWithoutWrapper(prev, e);
    if !Serializable(e.options) {
      UnionUpdate(m, ProxyTable(src, n - 1), k, ProxyOf(e));
    }
  }

  /** Replaying a table without blocks gives a plain proxy accessor under
      every non-serializable key, whatever the entry generated where it was
      first declared, and leaves every other method as it was. */
  lemma ReplayedAccessors(m: map<Symbol, Accessor>, src: Table<Symbol, Entry>)
    requires src.Valid() && WellKeyed(src)
    ensures Generate(m, ValuesInOrder(src), None) == m + ProxyTable(src, |src.keys|)
    ensures forall k :: k in src.values && !Serializable(src.values[k].options) ==>
              Generate(m, ValuesInOrder(src), None)[k] == ProxyOf(src.values[k])
  {
    ReplayedAccessorsPrefix(m, src, |src.keys|);
    assert ValuesInOrder(src)[..|src.keys|] == ValuesInOrder(src);
  }

  /** The public method table after `attr_reader *names; private *names;
      public :subject`: the slot readers are private, except `subject`. */
  function SlotReaders(m: map<Symbol, Accessor>, names: seq<Symbol>): (r: map<Symbol, Accessor>)
    ensures forall k :: k in names && k != "subject" ==> k !in r
    ensures "subject" in names ==> "subject" in r && r["subject"] == Reader("subject")
    ensures forall k :: k !in names ==> (k in r <==> k in m) && (k in m ==> r[k] == m[k])
  {
    var kept := map k | k in m && (k !in names || k == "subject") :: m[k];
    if "subject" in names then kept["subject" := Reader("subject")] else kept
  }
}
