/** The values `yaml.safe_load` hands to both scripts. The YAML parser itself is
    not part of this model: a document arrives already parsed. */
module Yaml {

  /** One YAML value. Floats and timestamps play no role in the scripts
      beyond "not a string and not iterable", so they share `Scalar`. A
      `!!binary` scalar loads as Python `bytes`, which iterates to its octets
      as integers. Mapping keys are strings. */
  datatype Value =
    | Null
    | Bool(b: bool)
    | Int(i: int)
    | Scalar
    | Bytes(octets: seq<bv8>)
    | Str(s: string)
    | List(items: seq<Value>)
    | Dict(fields: map<string, Value>)

  /** What `for x in s` visits for a Python string: one-character strings. */
  function Chars(s: string): (r: seq<Value>)
    ensures |r| == |s|
    ensures forall k :: 0 <= k < |s| ==> r[k] == Str([s[k]])
  {
    if s == [] then [] else [Str([s[0]])] + Chars(s[1..])
  }

  /** What `for x in b` visits for Python `bytes`: each octet as an integer. */
  function Octets(b: seq<bv8>): (r: seq<Value>)
    ensures |r| == |b|
    ensures forall k :: 0 <= k < |b| ==> r[k] == Int(b[k] as int)
  {
    if b == [] then [] else [Int(b[0] as int)] + Octets(b[1..])
  }

  /** `m.get(key, default)` on a mapping. */
  function Get(m: map<string, Value>, key: string, default: Value): Value
  {
    if key in m then m[key] else default
  }
}
