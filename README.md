# upholsterer presenter core, in Dafny

upholsterer is a Ruby gem for presenter classes. A presenter class
declares:

- its subject slots (`subjects :comment, :post`);
- the attributes it exposes (`expose :name, with: :user`).

From these declarations the class builds two things:

- an insertion-ordered attribute table, from output name to
  `[attr_name, options]`;
- a public accessor for each exposed attribute. An accessor reads the
  value through a slot, or through a container method called on the
  primary subject.

Block-form declarations share a lazily built wrapper object. Each
instance caches it in an instance variable. A subclass gets the parent's
slot list, and the parent's table replayed through `expose`. An instance
binds its subjects by position. `to_hash` maps each JSON field to what the
same-named public method returns.

The model has these modules, one per file:

- `Values` (values.dfy) covers Ruby values as the core sees them:
  - nil, booleans, numbers and strings;
  - arrays;
  - domain objects, given as maps from public method name to result;
  - nested presenter instances.

  It has truthiness, ActiveSupport's `present?`, `respond_to?` and
  message sends, and the exceptions these raise.
- `OrderedTables` (ordered_table.dfy) is Ruby's Hash as used here. The
  table keeps its keys in insertion order. Writing a key that is already
  there replaces the value and keeps the key's position. `Hash[pairs]` is
  also here.
- `Declaration` (declaration.dfy) covers what `expose` and `subjects`
  compute:
  - the options;
  - the output name;
  - the table key;
  - the wrapper and delegation names;
  - the accessors each declaration generates;
  - the folds that replay declarations into the table and the accessor
    table.
- `PresenterClasses` (presenter_class.dfy) is the presenter class as a
  Dafny class. Its fields are `subjects`, `attributes`, `methods` and
  `wrappers`. Its methods `Subjects`, `Expose`, `Inherited` and `Subclass`
  update those fields in place.
- `Resolution` (resolution.dfy) covers what an instance computes:
  - binding of subjects to slots;
  - the target that `proxy_message` resolves, and its answer;
  - `decorate_with_presenter`;
  - `map`;
  - `public_send` through the generated accessors, including the
    check-then-set wrapper cache.
- `JsonPresenter` (json_presenter.dfy) covers `json_fields` and
  `to_hash`.
- `Instances` (instance.dfy) is a presenter instance as a Dafny class.
  Its fields are `ivars` and `jsonFields`. It has the `initialize` loop,
  `public_send`, the wrapper method, `json_fields` and `to_hash`, each
  proved equal to the pure definitions of `Resolution` and
  `JsonPresenter`.
- `Scenarios` (scenarios.dfy) works the example presenters of
  spec/base_spec.rb through the model.

Three behaviours of the code shape the model:

- **Wrapper container.** Suppose the instance has no public method named
  like the container (base.rb:114-118). The wrapper then sends the
  container to what the public `subject` reader returns, i.e. to
  `@subject`. It does not send it to the first slot, and the two differ
  when the slots are renamed.
- **Decoration.** `decorate_with_presenter` (base.rb:206-212) has no case
  for collections. A present array given a presenter becomes one
  presenter around the whole array.
- **Field list of `to_hash`.** `json_fields` (json_presenter.rb:17-21)
  enumerates `public_methods(false)`, not the attribute table.

The code disagrees with one of its own tests. The test is "custom
subject" in spec/base_spec.rb:289-310, and it expects `user_name` to be
'Tom'. Under the code, `with: :user` names a slot (base.rb:202). So
`proxy_message` reads `@user`, which is nil, and never consults the
private `user` method. The answer is nil (`Scenarios.CustomSubjectIsNil`).
The comment at base.rb:185-186 describes the code's behaviour, so the
model follows the code.

## Model

| member | source | states |
|---|---|---|
| `Values.RespondTo` | lib/upholsterer/base.rb:203 | `respond_to?` is answered for nil and for domain objects. A domain object responds exactly to the methods it has. nil responds to none. Other values are not modelled. |
| `Values.Call` | lib/upholsterer/base.rb:202-203 | A send succeeds exactly when the receiver responds to the message. Its result is what that method returns. Otherwise it raises NoMethodError, or the value is not modelled. |
| `Values.Ivar` | lib/upholsterer/base.rb:201 | `instance_variable_get`: a set variable gives its value, and an unset one gives nil. |
| `Values.Truthy` | lib/upholsterer/base.rb:202 | Ruby truthiness, as `unless subject` tests it: nil and false are falsy; true, numbers (0 too), strings (empty ones too), arrays, objects and presenter instances are truthy. |
| `Values.Present` | lib/upholsterer/base.rb:207 | ActiveSupport `present?`: nil, false, whitespace-only strings, empty arrays and objects whose `empty?` is truthy are blank. Every present value is truthy. |
| `OrderedTables.Table.Put` | lib/upholsterer/base.rb:136-143 | `attributes[key] = value`. A new key is appended at the end. An existing key keeps its position and gets the new value. Every other key keeps its value. The table stays well formed. |
| `OrderedTables.PutAll` | lib/upholsterer/base.rb:134-143 | The `attrs.each` fold keeps the table well formed. It keeps every entry under the key its own value gives. It keeps the existing key order as a prefix. |
| `OrderedTables.PutAllAppends` | lib/upholsterer/base.rb:134-143 | Values with new, distinct keys are appended in order. |
| `OrderedTables.PutAllHolds` | lib/upholsterer/base.rb:143 | Suppose no later value repeats a value's key. Then that value is the one stored under the key. |
| `OrderedTables.PutAllOverwrites` | lib/upholsterer/base.rb:143 | Writing only keys that are already present leaves the key order, and so the size, unchanged. |
| `OrderedTables.PutAllReproduces` | lib/upholsterer/base.rb:48-50 | Writing a table's values in order, under the keys they carry, into an empty table rebuilds the same table. |
| `OrderedTables.ValuesInOrder` | lib/upholsterer/base.rb:48 | `each_value`: one value per key, in key order, each the value under its key. |
| `OrderedTables.FromPairsKeys` | lib/upholsterer/json_presenter.rb:4-6 | `Hash[pairs]` with distinct keys lists exactly those keys, in order. |
| `OrderedTables.FromPairsHolds` | lib/upholsterer/json_presenter.rb:4-6 | Suppose no later pair repeats a pair's key. Then that pair's value is the one stored under the key. |
| `OrderedTables.FromPairsDistinct` | lib/upholsterer/json_presenter.rb:4-6 | With distinct keys, `Hash[pairs]` has exactly those keys, in order. Each key holds its own pair's value. |
| `OrderedTables.FromPairsKeysIn` | lib/upholsterer/json_presenter.rb:4-6 | Every key of `Hash[pairs]` is the key of some pair. |
| `OrderedTables.FromPairs` | lib/upholsterer/json_presenter.rb:4-6 | `Hash[pairs]` writes the pairs in order. The result is always a well-formed table. |
| `Declaration.MethodPrefix` | lib/upholsterer/base.rb:104-105 | The prefix is the container, unless there is no container or `prefix: false` is given. |
| `Declaration.OutputName` | lib/upholsterer/base.rb:138-141 | Without a prefix, the output name is exactly the alias, or the attribute name when there is no alias. |
| `Declaration.KeyFor` | lib/upholsterer/base.rb:135-143 | A serializable entry is keyed by its raw attribute name. Every other entry is keyed by its output name. |
| `Declaration.WrapperName` | lib/upholsterer/base.rb:109 | The wrapper method name ends with `_wrapper`. For a single attribute it is `attr_wrapper`. |
| `Declaration.WrapperFor` | lib/upholsterer/base.rb:108-109 | A wrapper is defined exactly when a block and a present container are given. It is named after the exposed attributes. |
| `Declaration.DelegateName` | lib/upholsterer/base.rb:146 | Without the prefix flag, the delegated method is exactly the attribute name. |
| `Declaration.OutputNameShape` | lib/upholsterer/base.rb:138-141 | The output name ends with the alias, or with the attribute name when there is no alias. With a prefix it starts with `prefix_` and is exactly one character longer than prefix and name together, so it is `prefix_name`. |
| `Declaration.DelegateNameShape` | lib/upholsterer/base.rb:146 | The delegated method ends with the attribute name. With the prefix flag it starts with `wrapper_` and is exactly one character longer than wrapper and attribute together, so it is `wrapper_attr`. |
| `Declaration.Join` | lib/upholsterer/base.rb:109 | `attrs.join('_')`: no names give the empty string, one name gives itself, and the result starts with the first name. |
| `Declaration.ProxyOf` | lib/upholsterer/base.rb:148-152 | The `class_eval` accessor proxies the entry's own attribute through its container and decorates with its presenter. |
| `Declaration.ContainerPresent` | lib/upholsterer/base.rb:108 | `container.present?` for a symbol: a container is given and is not empty. |
| `Declaration.Serializable` | lib/upholsterer/base.rb:135 | `options.fetch(:serializable, false)` holds only when the option is given as true. |
| `Declaration.EntriesFor` | lib/upholsterer/base.rb:134-143 | One `[attr_name, options]` entry per exposed name, in order, each with the same options. |
| `Declaration.Replay` | lib/upholsterer/base.rb:134-143 | Writing entries in order keeps the table well formed and each entry under its own key. The old keys stay a prefix, and at most one key is added per entry. |
| `Declaration.Declare` | lib/upholsterer/base.rb:134-143 | One `expose` keeps the table well formed and each entry under its own key. The old keys stay a prefix, and at most one key is added per name. |
| `Declaration.SerializableKeys` | lib/upholsterer/base.rb:135-136 | A serializable `expose` keys every entry by its raw attribute name. |
| `Declaration.DeclareOne` | lib/upholsterer/base.rb:134-143 | Exposing one name writes exactly one entry, under its table key. |
| `Declaration.DeclareAppends` | lib/upholsterer/base.rb:134-143 | Suppose the exposed names give distinct, new keys. Then exactly those keys are appended, in order, and each holds `[attr_name, options]`. N names give N new entries. |
| `Declaration.DeclareOverwrites` | lib/upholsterer/base.rb:143 | Re-exposing names whose keys are already present does not grow the table, and no key moves. Each key holds the `[attr_name, options]` of the last name written under it. |
| `Declaration.ReplayStep` | lib/upholsterer/base.rb:48-50 | Writing one more entry is the same as a block-less `expose(attr_name, options)` of that entry. |
| `Declaration.GenerateStep` | lib/upholsterer/base.rb:48-50 | A block-less `expose` of one entry generates exactly that entry's accessor. |
| `Declaration.Generated` | lib/upholsterer/base.rb:135-154 | A serializable entry generates nothing. Any other entry adds exactly one public method, under its output name or its delegate name. That method is `AccessorOf` the entry: the proxy accessor without a wrapper, a delegation to the wrapper with one. No other method changes. |
| `Declaration.AccessorName` | lib/upholsterer/base.rb:138-150 | The name of the generated method: the output name without a wrapper (the `def` of line 149), and the delegate name with one (line 146). |
| `Declaration.AccessorOf` | lib/upholsterer/base.rb:145-153 | Without a wrapper an entry generates its proxy accessor. With one it generates a delegation of its attribute to that wrapper. |
| `Declaration.Generate` | lib/upholsterer/base.rb:134-156 | Generating accessors never removes a public method. |
| `Declaration.GenerateTouches` | lib/upholsterer/base.rb:134-156 | Only the names the non-serializable entries generate are added or changed. Every other public method keeps its definition. |
| `Declaration.GenerateDefines` | lib/upholsterer/base.rb:134-156 | A non-serializable entry whose accessor name no later entry generates again ends up defined, with its own accessor. |
| `Declaration.BlockExposeDelegates` | lib/upholsterer/base.rb:134-146 | A block-form `expose` of non-serializable names delegates every name to the wrapper, under its delegate name. Repeated names are allowed. |
| `Declaration.ExposeOneProxy` | lib/upholsterer/base.rb:134-153 | A block-less `expose` of one non-serializable name adds exactly its proxy accessor under its output name, and changes no other method. |
| `Declaration.SerializableGeneratesNothing` | lib/upholsterer/base.rb:135-136 | A serializable `expose` leaves the public methods exactly as they were. |
| `Declaration.ReplayReproduces` | lib/upholsterer/base.rb:46-51 | Replaying a well-keyed table's entries in order into an empty table gives the same keys, order and values. |
| `Declaration.GenerateBacked` | lib/upholsterer/base.rb:112-146 | Every delegating accessor refers to a defined wrapper method. |
| `Declaration.ReplayedAccessors` | lib/upholsterer/base.rb:46-51 | Replaying without blocks gives a plain proxy accessor under every non-serializable key. Wrapper-backed entries are included. All other methods are left as they were. |
| `Declaration.SlotReaders` | lib/upholsterer/base.rb:32-34 | Declared slot readers are private, so they leave the public table. `subject` is a public reader when it is a slot. All other public methods are unchanged. |
| `PresenterClasses.PresenterClass.Slots` | lib/upholsterer/base.rb:28 | The slot list is never empty. It is `[:subject]` while unset. |
| `PresenterClasses.PresenterClass.Base` | lib/upholsterer/base.rb:25 | The base class has no slots set and an empty table. Its only generated public method is the `subject` reader. |
| `PresenterClasses.PresenterClass.Inheriting` | lib/upholsterer/base.rb:66-68 | A new subclass starts with an empty table and unset slots. It sees its parent's methods. |
| `PresenterClasses.PresenterClass.Subjects` | lib/upholsterer/base.rb:27-38 | With no names, it returns the list, setting it to `[:subject]` only when it was unset. Repeated calls therefore return the same list. With names, it sets the list to exactly those names, in order, and hides their readers. |
| `PresenterClasses.PresenterClass.Expose` | lib/upholsterer/base.rb:100-157 | The table becomes `Declare` of the old table. The accessors become the generated ones. A wrapper is defined exactly when a block and a present container are given. The slots are unchanged. |
| `PresenterClasses.PresenterClass.Inherited` | lib/upholsterer/base.rb:46-51 | The child gets the parent's slot list. Its table is the parent's entries replayed in order. Its accessors are those of block-less replays. |
| `PresenterClasses.PresenterClass.Subclass` | lib/upholsterer/base.rb:46-51 | The child's slot list and table equal the parent's: same keys, values and order. Every non-serializable entry gets a plain proxy accessor. |
| `Resolution.Bind` | lib/upholsterer/base.rb:188-192 | `initialize` sets exactly one instance variable per slot name. |
| `Resolution.ArgAt` | lib/upholsterer/base.rb:190 | `subjects[index]`: the argument at that position, or nil past the end. |
| `Resolution.Splat` | lib/upholsterer/base.rb:80 | `*items`: an array gives its elements, nil gives no subjects, and any other value is the single subject. |
| `Resolution.BindSlot` | lib/upholsterer/base.rb:189-190 | Slot i holds argument i, or nil when there is no argument i. This requires that no later slot repeats the name. |
| `Resolution.BindSlots` | lib/upholsterer/base.rb:188-192 | With distinct slots, the i-th slot is bound to the i-th argument, and unbound slots hold nil. |
| `Resolution.Map` | lib/upholsterer/base.rb:79-81 | One presenter instance per element, in order. Array elements are spread as positional subjects. |
| `Resolution.MapAppend` | lib/upholsterer/base.rb:79-81 | `map` of a concatenation is the concatenation of the `map`s, so order is preserved. |
| `Resolution.MapBinds` | lib/upholsterer/base.rb:79-81 | An array element's j-th item is bound to the j-th slot of its instance. |
| `Resolution.MapBindsPrimary` | lib/upholsterer/base.rb:79-81 | A non-array element is the primary subject of its instance. Every other slot is nil. |
| `Resolution.Target` | lib/upholsterer/base.rb:200-202 | With no container, the target is the first slot. A slot named by the container, or a truthy instance variable of that name, is used. Otherwise the primary subject is sent the container. |
| `Resolution.ProxyMessage` | lib/upholsterer/base.rb:199-204 | A target that responds answers the message. A target that does not respond gives nil rather than an error, so a nil target gives nil. Errors come only from deriving the target or from unmodelled values. |
| `Resolution.Decorate` | lib/upholsterer/base.rb:206-212 | A present value given a presenter becomes `presenter.new(value)`. Any other value is returned unchanged, and the value changes only in that case. |
| `Resolution.Dispatch` | lib/upholsterer/base.rb:145-153 | A name with no generated accessor answers from the hand-written method, else raises NoMethodError, and changes nothing. Readers and proxy accessors leave the instance variables unchanged. |
| `Resolution.WrapperCall` | lib/upholsterer/base.rb:112-129 | A set cache is answered, decorated, without change. A call that succeeds leaves the cache set and answers the cached object, decorated. |
| `Resolution.WrapperViaSubject` | lib/upholsterer/base.rb:113-128 | On a miss, suppose the instance has no public method named like the container and `subject` is the slot reader. Then the container is sent to `@subject`, and the block builds from that answer. The object is cached and returned decorated. An error from the send is returned as it is. |
| `Resolution.DispatchKeeps` | lib/upholsterer/base.rb:112-129 | A `public_send` never unsets or changes an instance variable that is set. |
| `Resolution.WrapperKeeps` | lib/upholsterer/base.rb:112-129 | A wrapper call never unsets or changes an instance variable that is set. |
| `Resolution.WrapperCached` | lib/upholsterer/base.rb:113-128 | After a wrapper call succeeds, its cache is set. Every later call, at any depth, gives an equal result built from the same cached object and changes nothing, so the block runs at most once per instance. |
| `Resolution.WrapperCachedAcross` | lib/upholsterer/base.rb:113-128 | After a successful wrapper call and any public call after it, the wrapper still gives an equal result built from the same cached object, and changes nothing. |
| `JsonPresenter.Without` | lib/upholsterer/json_presenter.rb:18-20 | `fields.delete(:subject)` removes every `:subject` and keeps every other name. It keeps distinct names distinct. |
| `JsonPresenter.WithoutAppend` | lib/upholsterer/json_presenter.rb:19 | The kept names stay in their order. |
| `JsonPresenter.Fields` | lib/upholsterer/json_presenter.rb:17-21 | Once memoised, the list is returned as it is. Otherwise it is the public methods without `:subject`. |
| `JsonPresenter.Calls` | lib/upholsterer/json_presenter.rb:4-6 | One value per field when every call succeeds. |
| `JsonPresenter.CallsNext` | lib/upholsterer/json_presenter.rb:4-6 | The calls run in field order. Each call sees the instance variables the earlier ones left. |
| `JsonPresenter.CallsStops` | lib/upholsterer/json_presenter.rb:4-6 | The first failing call raises, and no later field is called. |
| `JsonPresenter.ToHash` | lib/upholsterer/json_presenter.rb:3-7 | `to_hash` fails exactly when a call fails, with the first error. It leaves the instance variables the calls left, and its hash is well formed. |
| `JsonPresenter.CallsPrefix` | lib/upholsterer/json_presenter.rb:4-6 | The i-th value is what `public_send` of the i-th field returns after the earlier calls. |
| `JsonPresenter.ToHashKeys` | lib/upholsterer/json_presenter.rb:3-7 | With distinct fields, as `public_methods(false)` gives, the keys of `to_hash` are exactly the fields, in their order. |
| `JsonPresenter.ToHashValue` | lib/upholsterer/json_presenter.rb:4-6 | With distinct fields, as `public_methods(false)` gives, each field maps to what the same-named public method returned. |
| `JsonPresenter.ToHashKeysAreFields` | lib/upholsterer/json_presenter.rb:4-6 | Every key of `to_hash` is a field. |
| `JsonPresenter.NoSubjectField` | lib/upholsterer/json_presenter.rb:18-20 | `:subject` is never a key of `to_hash`. |
| `Instances.Instance.constructor` | lib/upholsterer/base.rb:188-192 | `new(*args)` initialises the class's slot list if unset. Its instance variables are `Bind` of the slots and the arguments. Nothing is memoised yet. |
| `Instances.Instance.PublicSend` | lib/upholsterer/base.rb:145-153 | The answer and the new instance variables are exactly those of `Dispatch`. |
| `Instances.Instance.Wrapper` | lib/upholsterer/base.rb:112-129 | The check-then-set wrapper gives exactly the answer and instance variables of `WrapperCall`. |
| `Instances.Instance.JsonFields` | lib/upholsterer/json_presenter.rb:17-21 | The first call computes the list and stores it. Later calls return the stored list. Instance variables are unchanged. |
| `Instances.Instance.ToHash` | lib/upholsterer/json_presenter.rb:3-7 | The result and instance variables are those of `JsonPresenter.ToHash` over the memoised fields. `:subject` is never a key. |
| `Scenarios.CommentAttributes` | lib/upholsterer/base.rb:134-143 | The comment presenter's table has exactly `body`, `user_name` and `post_title`, in order, holding `[:name, {with: :user}]` and `[:title, {with: :post}]`. |
| `Scenarios.AliasName` | lib/upholsterer/base.rb:138-141 | `as: :url` gives the output name `url`. |
| `Scenarios.CollectNames` | lib/upholsterer/base.rb:105-146 | `prefix: false` gives `id`. The block form over `description` and `type` defines `description_type_wrapper` and delegates `type` under its own name. |
| `Scenarios.NilPostTitle` | lib/upholsterer/base.rb:199-204 | A nil `post` slot gives a nil `post_title`. |
| `Scenarios.UserNameThroughComment` | lib/upholsterer/base.rb:202 | `user_name` asks the comment for its user. |
| `Scenarios.CustomSubjectIsNil` | lib/upholsterer/base.rb:202 | A container that names a nil slot is not derived from the primary subject. |
| `Scenarios.NilIsNotDecorated` | lib/upholsterer/base.rb:206-212 | A nil value is not wrapped in the nested presenter. A present one is. |
| `Scenarios.MapSingle` | lib/upholsterer/base.rb:79-81 | `map([user])[0]` has the user as its subject. |
| `Scenarios.CommentPresenters` | lib/upholsterer/base.rb:46-51 | The comment presenter and an anonymous subclass both have the slots `comment` and `post` and the same three-entry table. Both define `user_name` and `post_title` as proxies of `name` through `user` and of `title` through `post`. |
| `Scenarios.CommentSends` | lib/upholsterer/base.rb:148-152 | Sent through those generated accessors, `user_name` gives the comment user's name and `post_title` with a nil post gives nil. Neither call changes the instance. |

## Left out

- `expose_all` (base.rb:159-169): `method_missing` and `respond_to?` overriding are open-ended dynamic dispatch. The model has no pass-through mode.
- The `subject` alias of the class method `subjects` (base.rb:40-42) is only a second name for the same operation.
- `to_param`, `to_json` and `as_json`: these are JSON text encoding and foreign calls. `to_h` is an alias of `to_hash` bound to the same method body, so `Instances.Instance.ToHash` models both.
- `serializable` and `do_not_use_prefixes!` are called by the tests but not defined in the modelled files. They are not modelled. The `serializable: true` option of `expose` is modelled.
- Ruby's method tables are not modelled:
  - `public_methods(false)` is an input sequence of `JsonFields` and `ToHash`;
  - hand-written public methods are an input map `own` of fixed answers, and the generated accessors shadow them;
  - private methods other than the wrappers are not modelled, so `__send__` on the primary subject reaches only its public methods;
  - `respond_to?` on the instance sees only the generated and hand-written public methods, not Object's own.
- A subclass copies its parent's methods when it is created. Methods the parent defines later are not seen by the child.
- Block forwarding (`&block` through the proxy accessors) and `instance_eval` are left out. The block of a block-form `expose` is given as a `Factory`: a function of the instance variables and the container object to the wrapper object.
- ActiveSupport `delegate` is modelled by its naming rule (`wrapper_attr` when prefixed). With a nil target it raises `DelegationError`; beyond that its behaviour is not modelled.
- `present?` is modelled for nil, booleans, whitespace-only strings, empty arrays, and objects answering `empty?`. Numbers and presenter instances are present.
- `Values.IsSpace` is ASCII whitespace only. ActiveSupport's `String#blank?` matches `[[:space:]]`, which also covers Unicode spaces such as U+00A0 and U+3000. So a string made only of those is present in the model but blank in Ruby.
- nil's own methods are not modelled: `Values.RespondTo` answers false for nil and every message. In Ruby, nil responds to methods such as `to_s`, so a proxy to `to_s` through a nil slot gives `""` where the model gives nil.
- Object identity is not modelled. `Resolution.Decorate` and `Resolution.Map` build `Presented` values, which are equal whenever their presenter and subjects are. Ruby builds a new presenter instance on every call (base.rb:80, 208), so a decorated wrapper result is equal across calls, not the same object.
- Sends to strings, numbers, booleans, arrays and nested presenter instances are not modelled. They give `Opaque`, which propagates as an error.
- Symbols and strings are both modelled as strings, so the `String` container of a declaration is the same as a `Symbol` one. Ruby's `NameError` for instance-variable names that are not valid identifiers is not modelled.
- `as: nil` is treated as an absent `as` option.
- Options are modelled by their commonly used values only. `serializable:` is honoured only when it is `true`, so a different truthy value such as a string is not modelled. `prefix:` is a boolean, so `prefix: nil` is not modelled; the source treats nil as falsy.
- A `presenter:` option is a presenter class name. An anonymous class (spec/base_spec.rb:259-288) is not modelled. Reading base.rb:151, its `inspect` text `#<Class:0x…>` would start a comment inside the generated method, so the `class_eval` would fail to parse. This reading has not been run.
- In `map`, only arrays and nil are spread by `*items`. Other values are passed as the single subject; `to_a` conversions are not modelled.
- `Resolution.Dispatch` and `Resolution.WrapperCall` take a `stack` bound on nested calls. Running out gives `StackExhausted`, which models Ruby's SystemStackError for accessors that resolve through each other without end. The actual stack depth is not modelled.
