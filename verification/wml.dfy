/** Attribute access on WML nodes (`wml::get_int`, `wml::get_bool` from wml_utils, whose
    bodies are not part of this model): a node's attributes are a name-to-text map. */
module Wml {
  import Text

  type Attrs = map<string, string>

  /** `node->attr(key)`: the attribute's text, empty when it is absent. */
  function Attr(attrs: Attrs, key: string): string
  {
    if key in attrs then attrs[key] else ""
  }

  /** `wml::get_int(node, key, default)`: the attribute read with `atoi`, else the default. */
  function GetInt(attrs: Attrs, key: string, default: int): int
  {
    if key in attrs then Text.Atoi(attrs[key]) else default
  }

  /** `wml::get_bool(node, key, default)`: "yes" or "true" when present, else the default. */
  predicate GetBool(attrs: Attrs, key: string, default: bool)
  {
    if key in attrs then attrs[key] == "yes" || attrs[key] == "true" else default
  }

  /** The text `set_attr` stores for a flag. */
  function YesNo(b: bool): string
  {
    if b then "yes" else "no"
  }

  /** An integer written with the formatter reads back, whatever the default. */
  lemma GetIntOfWritten(attrs: Attrs, key: string, n: int, default: int)
    ensures GetInt(attrs[key := Text.IntToString(n)], key, default) == n
  {
    Text.AtoiIntToString(n);
  }

  /** An attribute holding a written integer reads back as it, whatever the default. */
  lemma GetIntAt(attrs: Attrs, key: string, n: int, default: int)
    requires key in attrs && attrs[key] == Text.IntToString(n)
    ensures GetInt(attrs, key, default) == n
  {
    Text.AtoiIntToString(n);
  }

  /** A flag written as "yes"/"no" reads back, whatever the default. */
  lemma GetBoolOfWritten(attrs: Attrs, key: string, b: bool, default: bool)
    ensures GetBool(attrs[key := YesNo(b)], key, default) == b
  {
  }
}
