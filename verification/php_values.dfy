/** The PHP values that the search templates inspect: post objects, their
    property values, array keys, and the string functions applied to them. */
module PhpValues {

  datatype Option<+T> = None | Some(value: T)

  /** A property value: `null`, a string, or a nested object (such as a `WP_User`
      hanging off a post). Numbers and booleans are represented by their string form. */
  datatype Value = Null | Str(s: string) | Obj(props: map<string, Value>)

  /** An object, as the map from its property names to their values. */
  type Object = map<string, Value>

  /** A PHP array key: an integer (positional) or a string. */
  datatype Key = Pos(index: int) | Named(name: string)

  /** One element of a PHP array of objects, with the key it is stored under. */
  datatype Item = Item(key: Key, obj: Object)

  /** PHP's `empty()` on a value: `null`, `""` and `"0"` are empty, objects never are. */
  predicate IsEmpty(v: Value)
  {
    match v
    case Null => true
    case Str(s) => s == "" || s == "0"
    case Obj(_) => false
  }

  /** The string `strtolower` receives for a value: `null` reads as `""`; an object
      has no string form (PHP raises a TypeError). */
  function AsText(v: Value): Option<string>
  {
    match v
    case Null => Some("")
    case Str(s) => Some(s)
    case Obj(_) => None
  }

  predicate IsUpper(c: char)
  {
    'A' <= c <= 'Z'
  }

  function LowerChar(c: char): char
  {
    if IsUpper(c) then (c as int + 32) as char else c
  }

  /** `strtolower`: ASCII letters A-Z become a-z, every other character is kept. */
  function Lower(s: string): (r: string)
    ensures |r| == |s|
    ensures forall i :: 0 <= i < |s| ==> !IsUpper(r[i])
    ensures forall i :: 0 <= i < |s| && !IsUpper(s[i]) ==> r[i] == s[i]
    ensures forall i :: 0 <= i < |s| && IsUpper(s[i]) ==> r[i] as int == s[i] as int + 32
  {
    seq(|s|, i requires 0 <= i < |s| => LowerChar(s[i]))
  }

  /** Lowering twice is lowering once. */
  lemma LowerIdempotent(s: string)
    ensures Lower(Lower(s)) == Lower(s)
  {
    var l := Lower(s);
    assert forall i :: 0 <= i < |l| ==> Lower(l)[i] == l[i];
  }

  /** Case-insensitive equality of two strings, as `strtolower($a) == strtolower($b)`. */
  predicate SameIgnoringCase(a: string, b: string)
  {
    Lower(a) == Lower(b)
  }
}
