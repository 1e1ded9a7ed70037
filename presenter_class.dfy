/** A presenter class as its class-level declarations build it: the subject
    slot names, the ordered attribute table, and the public and wrapper
    methods that `expose` and `subjects` define. */
module PresenterClasses {
  import opened Values
  import opened OrderedTables
  import opened Declaration

  class PresenterClass {
    const name: PresenterName
    /** `@subjects`; the empty list stands for the variable not yet set. */
    var subjects: seq<Symbol>
    /** `@attributes`: output name to `[attr_name, options]`. */
    var attributes: Table<Symbol, Entry>
    /** The public instance methods generated by the declarations. */
    var methods: map<Symbol, Accessor>
    /** The private wrapper methods of block-form declarations. */
    var wrappers: map<Symbol, WrapperDef>

    ghost predicate Valid()
      reads this
    {
      attributes.Valid() && WellKeyed(attributes) && DelegatesBacked(methods, wrappers)
    }

    /** The slot list an instance is built with: `subjects` sets it to
        `[:subject]` when it was unset. */
    function Slots(): (r: seq<Symbol>)
      reads this
      ensures r != []
      ensures subjects != [] ==> r == subjects
    {
      if subjects == [] then ["subject"] else subjects
    }

    /** What an instance of this class sees of it. */
    function View(): Declaration.Shape
      reads this
    {
      Declaration.Shape(Slots(), methods, wrappers)
    }

    /** `Upholsterer::Base`: only the public `subject` reader, no slot list
        and no attributes yet. */
    constructor Base(name: PresenterName)
      ensures Valid()
      ensures this.name == name && subjects == [] && attributes == Empty()
      ensures methods == map["subject" := Reader("subject")] && wrappers == map[]
    {
      this.name := name;
      subjects := [];
      attributes := Empty();
      methods := map["subject" := Reader("subject")];
      wrappers := map[];
    }

    /** `Class.new(parent)` before its `inherited` hook runs: the class sees
        its parent's methods, and has no slot list or attributes of its own. */
    constructor Inheriting(name: PresenterName, parent: PresenterClass)
      requires parent.Valid()
      ensures Valid()
      ensures this.name == name && subjects == [] && attributes == Empty()
      ensures methods == parent.methods && wrappers == parent.wrappers
    {
      this.name := name;
      subjects := [];
      attributes := Empty();
      methods := parent.methods;
      wrappers := parent.wrappers;
    }

    /** `subjects(*names)`: with no names, returns the list, setting it to
        `[:subject]` if it was unset; otherwise replaces it by exactly the
        names, makes their readers private and keeps `subject` public. */
    method Subjects(names: seq<Symbol>) returns (r: seq<Symbol>)
      requires Valid()
      modifies this
      ensures Valid()
      ensures names == [] ==> subjects == old(Slots()) && methods == old(methods)
      ensures names != [] ==> subjects == names && methods == SlotReaders(old(methods), names)
      ensures r == subjects && r != []
      ensures attributes == old(attributes) && wrappers == old(wrappers)
    {
      if subjects == [] {
        subjects := ["subject"];
      }
      if names != [] {
        subjects := names;
        methods := SlotReaders(methods, names);
      }
      r := subjects;
    }

    /** `expose(*attrs, options, &block)`: defines the wrapper method when
        there is a block and a present container, then writes each
        attribute's entry in order and generates its accessor. */
    method Expose(attrs: seq<Symbol>, o: Options, block: Option<Factory>)
      requires Valid()
      modifies this
      ensures Valid()
      ensures subjects == old(subjects)
      ensures attributes == Declare(old(attributes), attrs, o)
      ensures var w := WrapperFor(attrs, o, block.Some?);
        && methods == Generate(old(methods), EntriesFor(attrs, o), w)
        && wrappers == if w.Some? then old(wrappers)[w.value := WrapperDef(o.container.value, block.value, o.presenter)]
                       else old(wrappers)
    {
      var wrapper := WrapperFor(attrs, o, block.Some?);
      if wrapper.Some? {
        wrappers := wrappers[wrapper.value := WrapperDef(o.container.value, block.value, o.presenter)];
      }
      var es := EntriesFor(attrs, o);
      ghost var w1, a0, m0 := wrappers, attributes, methods;
      for i := 0 to |es|
        invariant subjects == old(subjects) && wrappers == w1
        invariant attributes == Replay(a0, es[..i])
        invariant methods == Generate(m0, es[..i], wrapper)
      {
        var e := es[i];
        ReplayNext(a0, es, i);
        GenerateNext(m0, es, i, wrapper);
        attributes := attributes.Put(KeyFor(e), e);
        methods := Generated(methods, e, wrapper);
      }
      assert es[..|es|] == es;
      BackedGrows(old(methods), old(wrappers), wrappers);
      GenerateBacked(old(methods), es, wrapper, wrappers);
    }

    /** The `inherited` hook: copies the slot list to the child, then
        replays every entry of the table, in order, through a block-less
        `expose` on the child. */
    method Inherited(child: PresenterClass)
      requires Valid() && child.Valid() && child != this
      modifies this, child
      ensures Valid() && child.Valid()
      ensures subjects == old(Slots())
      ensures methods == old(methods) && attributes == old(attributes) && wrappers == old(wrappers)
      ensures child.subjects == subjects
      ensures child.attributes == Replay(old(child.attributes), ValuesInOrder(attributes))
      ensures child.methods == Generate(SlotReaders(old(child.methods), subjects), ValuesInOrder(attributes), None)
      ensures child.wrappers == old(child.wrappers)
    {
      var names := Subjects([]);
      var _ := child.Subjects(names);
      var vs := ValuesInOrder(attributes);
      ghost var t0 := child.attributes;
      ghost var m0 := child.methods;
      for i := 0 to |vs|
        invariant Valid() && child.Valid()
        invariant subjects == names && methods == old(methods) && attributes == old(attributes) && wrappers == old(wrappers)
        invariant child.subjects == names && child.wrappers == old(child.wrappers)
        invariant child.attributes == Replay(t0, vs[..i])
        invariant child.methods == Generate(m0, vs[..i], None)
      {
        ReplayStep(t0, vs, i);
        GenerateStep(m0, vs, i);
        child.Expose([vs[i].attr], vs[i].options, None);
      }
      assert vs[..|vs|] == vs;
    }

    /** `class Child < Parent`: the child has the parent's slot list, the
        parent's table with the same keys, values and order, and a plain
        proxy accessor for every entry that is not serializable, including
        entries that the parent serves through a wrapper. */
    method Subclass(childName: PresenterName) returns (child: PresenterClass)
      requires Valid()
      modifies this
      ensures fresh(child) && child.Valid() && Valid()
      ensures subjects == old(Slots()) && child.subjects == subjects
      ensures methods == old(methods) && attributes == old(attributes) && wrappers == old(wrappers)
      ensures child.attributes == attributes
      ensures child.methods == SlotReaders(methods, subjects) + ProxyTable(attributes, |attributes.keys|)
      ensures forall k :: k in attributes.values && !Serializable(attributes.values[k].options) ==>
                k in child.methods && child.methods[k] == ProxyOf(attributes.values[k])
      ensures child.wrappers == wrappers
    {
      child := new PresenterClass.Inheriting(childName, this);
      Inherited(child);
      ReplayReproduces(attributes);
      ReplayedAccessors(SlotReaders(methods, subjects), attributes);
    }
  }
}
