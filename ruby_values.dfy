/**
 * The dynamically typed values that travel in the option hashes handed to
 * the assembler backends, with Ruby's string interpolation ("#{v}") and
 * truthiness.
 */
module RubyValues {
  import opened Strings

  datatype Value = Nil | Bool(b: bool) | Int(i: int) | Str(s: string)

  /** An option hash keyed by symbol; a key is written here without its colon. */
  type Options = map<string, Value>

  /** Hash#[]: nil for a missing key. */
  function Lookup(opts: Options, key: string): Value
  {
    if key in opts then opts[key] else Nil
  }

  /** Ruby truthiness: only nil and false are false. */
  predicate Truthy(v: Value)
  {
    !(v.Nil? || v == Bool(false))
  }

  /** String interpolation "#{v}": nil renders as the empty string. */
  function Show(v: Value): string
  {
    match v
    case Nil => ""
    case Bool(b) => if b then "true" else "false"
    case Int(i) => IntToString(i)
    case Str(s) => s
  }

  /** A value whose rendering is exactly one word of a command line. */
  predicate IsWord(v: Value)
  {
    match v
    case Nil => false
    case Bool(_) => true
    case Int(_) => true
    case Str(s) => |s| >= 1 && ' ' !in s
  }

  /** A value that is one word renders as a non-empty string without spaces. */
  lemma ShowWord(v: Value)
    requires IsWord(v)
    ensures |Show(v)| >= 1 && ' ' !in Show(v)
  {
    if v.Int? {
      IntToStringIsWord(v.i);
    }
  }
}
