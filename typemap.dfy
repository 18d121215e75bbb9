/** Parameter type names to Ruby classes (lib/assemblotron/typemap.rb). */
module TypeMap {
  import opened Wrappers

  datatype RubyClass = StringClass | IntegerClass | FloatClass

  /** TypeMap.class_from_type: five recognised names; anything else gives nil. */
  function ClassFromType(name: string): (r: Option<RubyClass>)
    ensures r == Some(StringClass) <==> name == "str" || name == "string"
    ensures r == Some(IntegerClass) <==> name == "int" || name == "integer"
    ensures r == Some(FloatClass) <==> name == "float"
    ensures r.None? <==> name !in {"str", "string", "int", "integer", "float"}
  {
    if name == "str" || name == "string" then Some(StringClass)
    else if name == "int" || name == "integer" then Some(IntegerClass)
    else if name == "float" then Some(FloatClass)
    else None
  }

  /** The long name of each class, as parameter specifications write it. */
  function TypeName(c: RubyClass): string
  {
    match c
    case StringClass => "string"
    case IntegerClass => "integer"
    case FloatClass => "float"
  }

  /** Every class is reached from its long name, and no two classes share one. */
  lemma TypeNameRoundTrip(c: RubyClass)
    ensures ClassFromType(TypeName(c)) == Some(c)
  {
  }
}
