/** The option array of `FileUtility`: a PHP array from string keys to
    arbitrary values, of which two keys are read by the operations. */
module Options {

  /** The PHP values an option may hold (floats and arrays are not modelled). */
  datatype Value = Null | Bool(b: bool) | Int(i: int) | Str(s: string)

  type OptionMap = map<string, Value>

  const CreateDirectoriesKey: string := "create_directories"
  const OverwriteKey: string := "overwrite"

  /** PHP's conversion to bool: null, false, 0, "" and "0" are false. */
  predicate Truthy(v: Value) {
    match v
    case Null => false
    case Bool(b) => b
    case Int(i) => i != 0
    case Str(s) => s != "" && s != "0"
  }

  /** `$this->options[$key]` in a condition: a missing key reads as null. */
  predicate Flag(opts: OptionMap, key: string) {
    key in opts && Truthy(opts[key])
  }

  /** `array_merge` of the defaults with the supplied options, as the
      constructor does it: every supplied key, plus the two defaults where the
      caller left them out. */
  function MergeDefaults(supplied: OptionMap): (opts: OptionMap)
    ensures opts.Keys == supplied.Keys + {CreateDirectoriesKey, OverwriteKey}
    ensures forall k :: k in supplied ==> opts[k] == supplied[k]
    ensures CreateDirectoriesKey !in supplied ==> opts[CreateDirectoriesKey] == Bool(true)
    ensures OverwriteKey !in supplied ==> opts[OverwriteKey] == Bool(false)
  {
    map[CreateDirectoriesKey := Bool(true), OverwriteKey := Bool(false)] + supplied
  }

  /** `$this->options[$key] ?? $default`: the stored value, unless the key is
      missing or holds null. */
  function Lookup(opts: OptionMap, key: string, default: Value): Value {
    if key in opts && opts[key] != Null then opts[key] else default
  }

  /** Without supplied options, directories are created and nothing is
      overwritten; a supplied value wins over the default. */
  lemma DefaultFlags(supplied: OptionMap)
    ensures CreateDirectoriesKey !in supplied ==> Flag(MergeDefaults(supplied), CreateDirectoriesKey)
    ensures OverwriteKey !in supplied ==> !Flag(MergeDefaults(supplied), OverwriteKey)
    ensures CreateDirectoriesKey in supplied ==>
      (Flag(MergeDefaults(supplied), CreateDirectoriesKey) <==> Truthy(supplied[CreateDirectoriesKey]))
    ensures OverwriteKey in supplied ==>
      (Flag(MergeDefaults(supplied), OverwriteKey) <==> Truthy(supplied[OverwriteKey]))
  {
  }

  /** A missing key gives the caller's default, whatever it is. */
  lemma LookupMissing(opts: OptionMap, key: string, default: Value)
    requires key !in opts
    ensures Lookup(opts, key, default) == default
  {
  }

  /** Setting a key changes what that key reads as and nothing else; a
      non-null value set is read back as it was set. */
  lemma LookupAfterSet(opts: OptionMap, key: string, value: Value, other: string, default: Value)
    ensures Lookup(opts[key := value], key, default) == if value == Null then default else value
    ensures other != key ==> Lookup(opts[key := value], other, default) == Lookup(opts, other, default)
    ensures other != key ==> (Flag(opts[key := value], other) <==> Flag(opts, other))
  {
  }
}
