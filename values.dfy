/** Ruby values as the presenter core sees them: the subjects it is given,
    the results of the methods it calls, and the failures those calls raise. */
module Values {

  /** A Ruby symbol, method name or instance-variable name (without its `@`). */
  type Symbol = string

  /** A presenter class, named as a generated accessor refers to it. */
  type PresenterName = string

  datatype Option<T> = None | Some(value: T) {
    function GetOr(default: T): T {
      match this
      case Some(v) => v
      case None => default
    }
  }

  datatype Value =
    | Nil
    | Bool(b: bool)
    | Num(n: int)
    | Str(s: string)
    | List(items: seq<Value>)
      /** A domain object, given by the public zero-argument methods it
          responds to and what each of them returns. */
    | Obj(methods: map<Symbol, Value>)
      /** `presenter.new(*subjects)`: an instance of another presenter class. */
    | Presented(presenter: PresenterName, subjects: seq<Value>)

  datatype Failure =
    | NoMethodError(name: Symbol)
      /** ActiveSupport's `Module::DelegationError`: a delegated method sent
          to a target that is nil. */
    | DelegationError(name: Symbol)
      /** A call or `respond_to?` on a value whose methods are not modelled
          (a scalar, an array or a nested presenter instance). */
    | Opaque(name: Symbol)
      /** Ruby's SystemStackError: accessors that resolve through each other
          without end. */
    | StackExhausted

  datatype Result<T> = Ok(value: T) | Err(error: Failure)

  /** The instance variables of a presenter instance. */
  type State = map<Symbol, Value>

  /** `instance_variable_get`: an unset instance variable reads as nil. */
  function Ivar(s: State, name: Symbol): (v: Value)
    ensures name in s ==> v == s[name]
    ensures name !in s ==> v == Nil
  {
    if name in s then s[name] else Nil
  }

  /** Ruby truthiness: everything but nil and false. */
  predicate Truthy(v: Value)
    ensures v.Nil? || v == Bool(false) ==> !Truthy(v)
    ensures v == Bool(true) || v.Num? || v.Str? || v.List? || v.Obj? || v.Presented? ==> Truthy(v)
  {
    !(v.Nil? || v == Bool(false))
  }

  predicate IsSpace(c: char) {
    c == ' ' || c == '\t' || c == '\n' || c == '\r' || c == '\U{C}' || c == '\U{B}'
  }

  /** ActiveSupport's `present?`, the negation of `blank?`: nil, false,
      whitespace-only strings, empty arrays and objects whose `empty?` is
      truthy are blank. */
  predicate Present(v: Value)
    ensures Present(v) ==> Truthy(v)
  {
    match v
    case Nil => false
    case Bool(b) => b
    case Str(s) => !(forall i :: 0 <= i < |s| ==> IsSpace(s[i]))
    case List(xs) => xs != []
    case Obj(ms) => !("empty?" in ms && Truthy(ms["empty?"]))
    case Num(_) => true
    case Presented(_, _) => true
  }

  /** `v.respond_to?(m)`. */
  function RespondTo(v: Value, m: Symbol): (r: Result<bool>)
    ensures r.Err? <==> !(v.Nil? || v.Obj?)
    ensures r == Ok(true) ==> v.Obj? && m in v.methods
    ensures v.Obj? ==> r == Ok(m in v.methods)
    ensures v.Nil? ==> r == Ok(false)
  {
    match v
    case Nil => Ok(false)
    case Obj(ms) => Ok(m in ms)
    case _ => Err(Opaque(m))
  }

  /** `v.__send__(m)` or `v.public_send(m)`: raises NoMethodError when `v`
      does not respond to `m`. */
  function Call(v: Value, m: Symbol): (r: Result<Value>)
    ensures r.Ok? <==> RespondTo(v, m) == Ok(true)
    ensures r.Ok? ==> r.value == v.methods[m]
  {
    match v
    case Nil => Err(NoMethodError(m))
    case Obj(ms) => if m in ms then Ok(ms[m]) else Err(NoMethodError(m))
    case _ => Err(Opaque(m))
  }
}
