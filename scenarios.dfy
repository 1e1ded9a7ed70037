/** The example presenters of the repository's own tests, worked through
    the model. */
module Scenarios {
  import opened Values
  import opened OrderedTables
  import opened Declaration
  import opened Resolution
  import opened PresenterClasses

  const WithUser: Options := Options(Some("user"), None, None, None, None)
  const WithPost: Options := Options(Some("post"), None, None, None, None)
  const ProjectNoPrefix: Options := Options(Some("project"), None, Some(false), None, None)

  /** `expose :body; expose :name, with: :user; expose :title, with: :post`. */
  function CommentTable(): Table<Symbol, Entry> {
    Declare(Declare(Declare(Empty(), ["body"], NoOptions), ["name"], WithUser), ["title"], WithPost)
  }

  /** The output names of the comment presenter's declarations. */
  lemma CommentKeys()
    ensures KeyFor(Entry("body", NoOptions)) == "body"
    ensures KeyFor(Entry("name", WithUser)) == "user_name"
    ensures KeyFor(Entry("title", WithPost)) == "post_title"
  {
  }

  /** The three declarations write, in order, `body`, `user_name` and
      `post_title`. */
  lemma CommentTablePuts()
    ensures CommentTable() ==
      Empty<Symbol, Entry>().Put("body", Entry("body", NoOptions))
                            .Put("user_name", Entry("name", WithUser))
                            .Put("post_title", Entry("title", WithPost))
  {
    CommentKeys();
    var t0: Table<Symbol, Entry> := Empty();
    DeclareOne(t0, "body", NoOptions);
    var t1 := t0.Put("body", Entry("body", NoOptions));
    DeclareOne(t1, "name", WithUser);
    var t2 := t1.Put("user_name", Entry("name", WithUser));
    DeclareOne(t2, "title", WithPost);
  }

  /** The table those three writes build. */
  lemma CommentPutsTable()
    ensures var t := Empty<Symbol, Entry>().Put("body", Entry("body", NoOptions))
                                           .Put("user_name", Entry("name", WithUser))
                                           .Put("post_title", Entry("title", WithPost));
      && t.keys == ["body", "user_name", "post_title"]
      && t.values["user_name"] == Entry("name", WithUser)
      && t.values["post_title"] == Entry("title", WithPost)
  {
    var t1 := Empty<Symbol, Entry>().Put("body", Entry("body", NoOptions));
    assert "user_name" !in t1.keys;
    var t2 := t1.Put("user_name", Entry("name", WithUser));
    assert "post_title" !in t2.keys;
  }

  /** The comment presenter's table has three entries, `user_name` holding
      `[:name, {with: :user}]` and `post_title` holding
      `[:title, {with: :post}]`. */
  lemma CommentAttributes()
    ensures CommentTable().keys == ["body", "user_name", "post_title"]
    ensures CommentTable().values["user_name"] == Entry("name", WithUser)
    ensures CommentTable().values["post_title"] == Entry("title", WithPost)
  {
    CommentTablePuts();
    CommentPutsTable();
  }

  /** `expose :site, as: :url` is served as `url`. */
  lemma AliasName()
    ensures OutputName("site", Options(None, Some("url"), None, None, None)) == "url"
  {
  }

  /** `expose :id, with: :project, prefix: false` is served as `id`, and
      the block form over `description` and `type` shares the wrapper
      `description_type_wrapper` and delegates both under their own names. */
  lemma CollectNames()
    ensures OutputName("id", ProjectNoPrefix) == "id"
    ensures WrapperFor(["description", "type"], ProjectNoPrefix, true) == Some("description_type_wrapper")
    ensures DelegateName("description_type_wrapper", "type", MethodPrefix(ProjectNoPrefix).Some?) == "type"
  {
    assert Join(["description", "type"], "_") == "description_type";
    assert "description_type" + "_wrapper" == "description_type_wrapper";
    assert ContainerPresent(ProjectNoPrefix);
  }

  const Slots2: seq<Symbol> := ["comment", "post"]

  const JohnDoe: Value := Obj(map["name" := Str("John Doe")])
  const SomeComment: Value := Obj(map["body" := Str("Some comment"), "user" := JohnDoe])

  /** `CommentPresenter.new(comment, nil).post_title` is nil. */
  lemma NilPostTitle(comment: Value)
    ensures ProxyMessage(Slots2, Bind(Slots2, [comment, Nil]), Some("post"), "title") == Ok(Nil)
  {
  }

  /** `user_name` asks the comment for its user, as `user` is not a slot. */
  lemma UserNameThroughComment()
    ensures var post := Obj(map["title" := Str("Some post")]);
      ProxyMessage(Slots2, Bind(Slots2, [SomeComment, post]), Some("user"), "name") == Ok(Str("John Doe"))
  {
  }

  /** With slots `message` and `user` and only a message given, `user_name`
      is nil: the container names a slot, so the primary subject is not
      asked, and a private method named `user` is never consulted. */
  lemma CustomSubjectIsNil(message: Value)
    ensures ProxyMessage(["message", "user"], Bind(["message", "user"], [message]), Some("user"), "name") == Ok(Nil)
  {
  }

  /** `expose :comment, presenter: SimplePresenter` on a post whose comment
      is nil gives nil, not a presenter around nil. */
  lemma NilIsNotDecorated()
    ensures Decorate(Nil, Some("SimplePresenter")) == Nil
    ensures Decorate(Obj(map[]), Some("SimplePresenter")) == Presented("SimplePresenter", [Obj(map[])])
  {
  }

  /** `UserPresenter.map([user])[0]` is a presenter whose subject is the user. */
  lemma MapSingle(user: Value)
    requires user.Obj?
    ensures Bind(["subject"], Map("UserPresenter", [user])[0].subjects)["subject"] == user
  {
  }

  /** `class CommentPresenter < Presenter` with its slots and three
      declarations, and an anonymous subclass of it: both have the slots
      `comment` and `post` and the same three-entry table. */
  method CommentPresenters() returns (comment: PresenterClass, child: PresenterClass)
    ensures comment.subjects == ["comment", "post"] && child.subjects == ["comment", "post"]
    ensures comment.attributes == CommentTable() && child.attributes == CommentTable()
    ensures CommentAccessors(comment.View()) && CommentAccessors(child.View())
  {
    var base := new PresenterClass.Base("Upholsterer::Base");
    var presenter := base.Subclass("Presenter");
    comment := presenter.Subclass("CommentPresenter");
    var _ := comment.Subjects(["comment", "post"]);
    CommentKeys();
    ghost var mbody := comment.methods;
    comment.Expose(["body"], NoOptions, None);
    ExposeOneProxy(mbody, "body", NoOptions);
    ghost var mname := comment.methods;
    comment.Expose(["name"], WithUser, None);
    ExposeOneProxy(mname, "name", WithUser);
    ghost var mtitle := comment.methods;
    comment.Expose(["title"], WithPost, None);
    ExposeOneProxy(mtitle, "title", WithPost);
    CommentAttributes();
    child := comment.Subclass("");
    assert comment.attributes.values["user_name"] == Entry("name", WithUser);
    assert comment.attributes.values["post_title"] == Entry("title", WithPost);
  }

  /** The slots and the two proxy accessors the comment presenter's
      declarations generate. */
  ghost predicate CommentAccessors(shape: Shape) {
    && shape.slots == Slots2
    && "user_name" in shape.methods && shape.methods["user_name"] == Proxy(Some("user"), "name", None)
    && "post_title" in shape.methods && shape.methods["post_title"] == Proxy(Some("post"), "title", None)
  }

  /** Through the generated accessors, `user_name` of a comment presenter
      is the name of the comment's user, and `post_title` without a post
      is nil; neither call changes the instance. */
  lemma CommentSends(shape: Shape, own: map<Symbol, Value>, stack: nat)
    requires CommentAccessors(shape)
    ensures var post := Obj(map["title" := Str("Some post")]);
      var s := Bind(Slots2, [SomeComment, post]);
      Dispatch(shape, own, stack, s, "user_name") == (Ok(Str("John Doe")), s)
    ensures var s := Bind(Slots2, [SomeComment, Nil]);
      Dispatch(shape, own, stack, s, "post_title") == (Ok(Nil), s)
  {
    UserNameThroughComment();
    NilPostTitle(SomeComment);
  }
}
