/**
 * `ConfigLoader` of utils/config_loader.py: the older loader. A missing file
 * raises instead of giving `{}`, the parsed document is kept as it is (even
 * `None`), and `get` returns a stored `None` rather than the default.
 */
module LegacyConfig {
  import opened Wrappers
  import opened Text
  import opened Config

  /** The default configuration file, relative to the project root. */
  const DefaultPath: string := "config/config.yaml"

  /** The walk of the older `get`: it fails only at a value that is not a dictionary or at a missing key. */
  function LegacyWalk(v: Value, keys: seq<string>): Option<Value> {
    if |keys| == 0 then Some(v)
    else if !v.Dict? || keys[0] !in v.entries then None
    else LegacyWalk(v.entries[keys[0]], keys[1..])
  }

  function LegacyLookup(v: Value, keys: seq<string>, default: Value): Value {
    LegacyWalk(v, keys).GetOr(default)
  }

  /** `_load_config`: a missing file raises `FileNotFoundError`; an error while opening or parsing escapes as the exception `open` or `yaml.safe_load` raised. */
  function LoadConfig(path: string, file: YamlFile): (r: Result<Value>)
    ensures r.Success? <==> file.Parsed?
    ensures r.Success? ==> r.value == file.doc
  {
    match file
    case Missing => Failure("Configuration file not found: " + path)
    case Unreadable(e) => Failure(e)
    case Parsed(doc) => Success(doc)
  }

  class LegacyConfigLoader {
    const configPath: string
    var config: Value

    /** The object `__init__` builds once `_load_config` has returned `doc`. */
    constructor (configPath: string, doc: Value)
      ensures this.configPath == configPath && config == doc
    {
      this.configPath := configPath;
      config := doc;
    }

    /** `reload`: the configuration is replaced, or the exception escapes and it is left as it was. */
    method Reload(file: YamlFile) returns (error: Option<string>)
      modifies this
      ensures error.Some? <==> !file.Parsed?
      ensures file.Parsed? ==> config == file.doc
      ensures !file.Parsed? ==> config == old(config)
    {
      var loaded := LoadConfig(configPath, file);
      if loaded.Failure? {
        return Some(loaded.error);
      }
      config := loaded.value;
      error := None;
    }

    /** `get`: split the key on '.' and walk down; a missing key or a non-dictionary gives the default. */
    method Get(keyPath: string, default: Value) returns (value: Value)
      ensures value == LegacyLookup(config, SplitChar(keyPath, '.'), default)
    {
      var keys := SplitChar(keyPath, '.');
      value := config;
      var i := 0;
      while i < |keys|
        invariant 0 <= i <= |keys|
        invariant LegacyWalk(config, keys) == LegacyWalk(value, keys[i..])
      {
        assert keys[i..][1..] == keys[i + 1..];
        if !value.Dict? || keys[i] !in value.entries {
          return default;
        }
        value := value.entries[keys[i]];
        i := i + 1;
      }
    }

    /** `get_section`: raises when the document is not a dictionary, `None` included. */
    function GetSection(section: string): (r: Result<Value>)
      reads this
      ensures r == SectionOf(config, section)
      ensures config == Null ==> r.Failure?
    {
      SectionOf(config, section)
    }
  }

  /**
   * `__init__`: the given path, or the default one under the project root,
   * then `_load_config`, whose exception escapes.
   */
  method Open(configPath: Option<string>, file: YamlFile) returns (r: Result<LegacyConfigLoader>)
    ensures r.Success? <==> file.Parsed?
    ensures r.Success? ==> fresh(r.value) && r.value.config == file.doc
                           && r.value.configPath == configPath.GetOr(DefaultPath)
  {
    var path := configPath.GetOr(DefaultPath);
    var loaded := LoadConfig(path, file);
    if loaded.Failure? {
      return Failure(loaded.error);
    }
    var loader := new LegacyConfigLoader(path, loaded.value);
    r := Success(loader);
  }

  // ---------------------------------------------------------------------
  // The two loaders compared
  // ---------------------------------------------------------------------

  /** Past `None` nothing is found. */
  lemma NullHasNoKeys(keys: seq<string>)
    requires |keys| > 0
    ensures LegacyWalk(Null, keys) == None
  {
  }

  /**
   * The two `get`s agree except on a stored `None` at the end of the path:
   * the newer one gives the default there, the older one the `None`.
   */
  lemma {:induction false} GetVariants(v: Value, keys: seq<string>, default: Value)
    requires |keys| > 0
    ensures Lookup(v, keys, default) == (var r := LegacyLookup(v, keys, default); if r == Null then default else r)
  {
    if v.Dict? && keys[0] in v.entries {
      var w := v.entries[keys[0]];
      if |keys| == 1 {
        assert keys[1..] == [];
        assert LegacyWalk(v, keys) == LegacyWalk(w, []) == Some(w);
        if w != Null {
          assert Walk(v, keys) == Walk(w, []) == Some(w);
        }
      } else if w == Null {
        NullHasNoKeys(keys[1..]);
      } else {
        GetVariants(w, keys[1..], default);
      }
    }
  }

  /** A stored `None` is where they part: the older `get` returns it. */
  lemma LegacyKeepsNone(v: Value, key: string, default: Value)
    requires '.' !in key && v.Dict? && key in v.entries && v.entries[key] == Null
    ensures LegacyLookup(v, SplitChar(key, '.'), default) == Null
    ensures Lookup(v, SplitChar(key, '.'), default) == default
  {
    var keys := SplitChar(key, '.');
    assert keys == [key] && keys[1..] == [];
    assert LegacyWalk(v, keys) == LegacyWalk(Null, []);
  }
}
