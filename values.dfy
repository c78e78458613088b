/**
 * The PHP values a cell can hold, the Eloquent records they are read from, and Laravel's
 * `blank` / `filled` tests on them.
 */
module Values {
  import opened Strings

  /**
   * A PHP value as the export core meets it: scalars, arrays (a list, or a string-keyed
   * dictionary), a single Eloquent model, and an Eloquent collection of models.
   */
  datatype Value =
    | Null
    | Bool(b: bool)
    | Int(i: int)
    | Float(f: real)
    | Str(s: string)
    | List(items: seq<Value>)
    | Dict(entries: map<string, Value>)
    | Model(record: Record)
    | Collection(members: seq<Record>)

  /**
   * An Eloquent model instance: its class, its attribute values, and the relations already
   * loaded on it (`$model->getRelations()`), keyed by relation name.
   */
  datatype Record = Record(typeName: string, attributes: map<string, Value>, relations: map<string, Loaded>)

  /** A loaded relation value: a related model, a collection of them, or null. */
  datatype Loaded = Missing | One(record: Record) | Many(members: seq<Record>)

  /**
   * `blank($value)`: null is blank, a string is blank when it trims to nothing, numbers and
   * booleans never are, a countable (a collection) is blank when it has no element, and
   * anything else follows PHP `empty` (an empty array is blank, a model object is not).
   */
  predicate Blank(v: Value) {
    match v
    case Null => true
    case Str(s) => Trim(s) == ""
    case Int(_) => false
    case Float(_) => false
    case Bool(_) => false
    case Collection(ms) => |ms| == 0
    case List(xs) => |xs| == 0
    case Dict(m) => |m| == 0
    case Model(_) => false
  }

  /** `filled($value)`. */
  predicate Filled(v: Value) {
    !Blank(v)
  }

  /** A string is blank exactly when every character is one `trim` removes. */
  lemma {:induction false} BlankString(s: string)
    ensures Blank(Str(s)) <==> AllTrimChars(s)
  {
    TrimEmptyIff(s);
  }

  /**
   * `blank` is not PHP falsiness: `false`, `0`, `0.0` and the string "0" are falsy in PHP
   * and yet filled, while a string of spaces is truthy in PHP and yet blank.
   */
  lemma {:induction false} BlankIsNotFalsy()
    ensures Filled(Bool(false)) && Filled(Int(0)) && Filled(Float(0.0)) && Filled(Str("0"))
    ensures Blank(Str(" \t\n"))
  {
    BlankString(" \t\n");
    BlankString("0");
  }
}

/** "Value or closure" settings, and the `evaluate` step that resolves them. */
module Knobs {
  /**
   * A setting that is either a plain value or a closure; the closure receives the
   * context the source's container would inject into it.
   */
  datatype Knob<-C, T> = Literal(value: T) | Computed(fn: C -> T) {
    /** `evaluate($value, $parameters)`: call a closure with the context, return anything else as is. */
    function Evaluate(context: C): (r: T)
      ensures Literal? ==> r == value
      ensures Computed? ==> r == fn(context)
    {
      match this
      case Literal(v) => v
      case Computed(f) => f(context)
    }
  }
}
