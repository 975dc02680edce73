/**
 * `ConfigLoader` of src/paper_review/core/config.py: a YAML document read
 * into a dictionary, looked up by dot-separated key paths.
 *
 * A missing key and a key whose value is `None` both give the default here;
 * a stored false, 0 or "" is returned as stored.
 */
module Config {
  import opened Wrappers
  import opened Text

  /** A parsed YAML value. */
  datatype Value =
    | Null
    | Bool(b: bool)
    | Int(i: int)
    | Real(r: real)
    | Str(s: string)
    | List(items: seq<Value>)
    | Dict(entries: map<string, Value>)

  /** Python truthiness of a parsed value. */
  predicate Falsy(v: Value) {
    match v
    case Null => true
    case Bool(b) => !b
    case Int(i) => i == 0
    case Real(r) => r == 0.0
    case Str(s) => s == ""
    case List(items) => items == []
    case Dict(entries) => entries == map[]
  }

  const EmptyDict: Value := Dict(map[])

  /** `yaml.safe_load(f) or {}`. */
  function OrEmpty(v: Value): (r: Value)
    ensures Falsy(v) ==> r == EmptyDict
    ensures !Falsy(v) ==> r == v
    ensures r != Null
  {
    if Falsy(v) then EmptyDict else v
  }

  /** What reading the configuration file gives: no file, an error while reading or parsing, or the parsed document. */
  datatype YamlFile = Missing | Unreadable(error: string) | Parsed(doc: Value)

  /**
   * The walk of `get` along `keys`: it fails at a value that is not a
   * dictionary, at a missing key, and at a stored `None`.
   */
  function Walk(v: Value, keys: seq<string>): Option<Value> {
    if |keys| == 0 then Some(v)
    else if !v.Dict? || keys[0] !in v.entries || v.entries[keys[0]] == Null then None
    else Walk(v.entries[keys[0]], keys[1..])
  }

  /** `get(key, default)` on the document `v`. */
  function Lookup(v: Value, keys: seq<string>, default: Value): Value {
    Walk(v, keys).GetOr(default)
  }

  /** `config.get(section, {})`: raises unless the document is a dictionary; a stored `None` is returned as it is. */
  function SectionOf(v: Value, section: string): (r: Result<Value>)
    ensures r.Success? <==> v.Dict?
    ensures r.Success? ==> r.value == if section in v.entries then v.entries[section] else EmptyDict
  {
    if !v.Dict? then Failure("object has no attribute 'get'")
    else if section in v.entries then Success(v.entries[section])
    else Success(EmptyDict)
  }

  class ConfigLoader {
    const configPath: string
    var config: Value

    /** `__init__`: start from `{}`, then `load`. */
    constructor (configPath: string, file: YamlFile)
      ensures this.configPath == configPath
      ensures config == if file.Parsed? then OrEmpty(file.doc) else EmptyDict
    {
      this.configPath := configPath;
      config := EmptyDict;
      new;
      var _ := Load(file);
    }

    /**
     * `load`: with no file, or when reading raises, `{}` is returned and the
     * configuration is left as it was; otherwise the parsed document (or `{}`
     * in place of a falsy one) replaces it and is returned.
     */
    method Load(file: YamlFile) returns (loaded: Value)
      modifies this
      ensures !file.Parsed? ==> loaded == EmptyDict && config == old(config)
      ensures file.Parsed? ==> config == OrEmpty(file.doc) && loaded == config
    {
      if file.Missing? {
        return EmptyDict;
      }
      if file.Unreadable? {
        return EmptyDict;
      }
      config := OrEmpty(file.doc);
      loaded := config;
    }

    /** `reload`: `load` again. */
    method Reload(file: YamlFile) returns (loaded: Value)
      modifies this
      ensures !file.Parsed? ==> loaded == EmptyDict && config == old(config)
      ensures file.Parsed? ==> config == OrEmpty(file.doc) && loaded == config
    {
      loaded := Load(file);
    }

    /** `get`: split the key on '.', walk down, and give the default as soon as the walk fails. */
    method Get(key: string, default: Value) returns (value: Value)
      ensures value == Lookup(config, SplitChar(key, '.'), default)
    {
      var keys := SplitChar(key, '.');
      value := config;
      var i := 0;
      while i < |keys|
        invariant 0 <= i <= |keys|
        invariant Walk(config, keys) == Walk(value, keys[i..])
      {
        assert keys[i..][1..] == keys[i + 1..];
        if !value.Dict? {
          return default;
        }
        value := if keys[i] in value.entries then value.entries[keys[i]] else Null;
        if value == Null {
          return default;
        }
        i := i + 1;
      }
    }

    /** `get_section`. */
    function GetSection(section: string): (r: Result<Value>)
      reads this
      ensures r == SectionOf(config, section)
    {
      SectionOf(config, section)
    }
  }

  // ---------------------------------------------------------------------
  // What the lookup promises
  // ---------------------------------------------------------------------

  /** A key stored with a value other than `None` is found, falsy values included. */
  lemma StoredValueFound(v: Value, key: string, default: Value)
    requires '.' !in key && v.Dict? && key in v.entries && v.entries[key] != Null
    ensures Lookup(v, SplitChar(key, '.'), default) == v.entries[key]
  {
    var keys := SplitChar(key, '.');
    assert keys == [key] && keys[1..] == [];
    assert Walk(v.entries[key], []) == Some(v.entries[key]);
    assert Walk(v, keys) == Walk(v.entries[key], []);
  }

  /** A missing key, a stored `None` and a non-dictionary document all give the default. */
  lemma AbsentGivesDefault(v: Value, key: string, default: Value)
    requires '.' !in key
    requires !v.Dict? || key !in v.entries || v.entries[key] == Null
    ensures Lookup(v, SplitChar(key, '.'), default) == default
  {
  }

  /** Walking a path is walking its first part, then the rest from where that ended. */
  lemma {:induction false} WalkAppend(v: Value, first: seq<string>, rest: seq<string>)
    ensures Walk(v, first + rest) == match Walk(v, first) case None => None case Some(w) => Walk(w, rest)
  {
    if |first| > 0 {
      assert (first + rest)[0] == first[0];
      assert (first + rest)[1..] == first[1..] + rest;
      if v.Dict? && first[0] in v.entries && v.entries[first[0]] != Null {
        WalkAppend(v.entries[first[0]], first[1..], rest);
      }
    } else {
      assert first + rest == rest;
    }
  }

  /** `get("a.b")` is `get("b")` inside the section `a`, when that section is stored. */
  lemma DottedIsNested(v: Value, section: string, key: string, default: Value)
    requires '.' !in section
    requires SectionOf(v, section).Success?
    requires section in v.entries && v.entries[section] != Null
    ensures Lookup(v, SplitChar(section + "." + key, '.'), default)
            == Lookup(SectionOf(v, section).value, SplitChar(key, '.'), default)
  {
    SplitAfterPiece(section, '.', key);
    assert section + "." + key == section + ['.'] + key;
    assert SplitChar(section + "." + key, '.') == [section] + SplitChar(key, '.');
    WalkAppend(v, [section], SplitChar(key, '.'));
  }

  /** `get` and `get_section` differ on a stored `None`: `get` gives the default, `get_section` the `None`. */
  lemma SectionKeepsNone(v: Value, section: string, default: Value)
    requires '.' !in section && v.Dict? && section in v.entries && v.entries[section] == Null
    ensures Lookup(v, SplitChar(section, '.'), default) == default
    ensures SectionOf(v, section) == Success(Null)
  {
  }
}
