/**
 The loosely typed records the graph endpoint works on: Python dictionaries whose values
 come from storage objects or JSON files, and the `dict.get(key, default)` lookups the
 endpoint chains together.
 */
module Records {

  /**
   A Python value as far as the graph endpoint can observe it.
   `Num` also stands for `bool`: `True == 1` and `False == 0` in Python, with equal hashes
   and the same truthiness. `Compound` is a list or dict of the given size: truthy when
   non-empty and never hashable.
   */
  datatype Value = Null | Str(s: string) | Num(n: int) | Compound(size: nat)

  /** A Python dictionary with string keys. */
  type Record = map<string, Value>

  /** Python truthiness: `None`, `""`, `0`/`False` and empty containers are false. */
  predicate Truthy(v: Value) {
    match v
    case Null => false
    case Str(s) => s != []
    case Num(n) => n != 0
    case Compound(size) => size > 0
  }

  /** Whether the value may be put in a Python `set` (lists and dicts may not). */
  predicate Hashable(v: Value) {
    !v.Compound?
  }

  /** `r.get(key, default)`: the stored value when the key is present, even a falsy one. */
  function Get(r: Record, key: string, default: Value): Value {
    if key in r then r[key] else default
  }

  /** The position of the first key of `keys` present in `r`, if there is one. */
  function FirstPresentIndex(r: Record, keys: seq<string>): (k: nat)
    ensures k <= |keys|
    ensures forall j :: 0 <= j < k ==> keys[j] !in r
    ensures k < |keys| ==> keys[k] in r
  {
    if |keys| == 0 then 0
    else if keys[0] in r then 0
    else 1 + FirstPresentIndex(r, keys[1..])
  }

  /**
   `r.get(k0, r.get(k1, ... r.get(kn, default)))`: the value under the first listed key
   that is present in `r`, whatever that value is; `default` only when none is present.
   */
  function FirstPresent(r: Record, keys: seq<string>, default: Value): (v: Value)
    ensures var k := FirstPresentIndex(r, keys);
      v == if k < |keys| then r[keys[k]] else default
  {
    if |keys| == 0 then default
    else Get(r, keys[0], FirstPresent(r, keys[1..], default))
  }

  /** A chain of two keys is `r.get(a, r.get(b, default))`. */
  lemma ChainOfTwo(r: Record, a: string, b: string, default: Value)
    ensures FirstPresent(r, [a, b], default) == Get(r, a, Get(r, b, default))
  {
    assert [a, b][1..] == [b];
    assert [b][1..] == [];
  }

  /** A chain of three keys is `r.get(a, r.get(b, r.get(c, default)))`. */
  lemma ChainOfThree(r: Record, a: string, b: string, c: string, default: Value)
    ensures FirstPresent(r, [a, b, c], default) == Get(r, a, Get(r, b, Get(r, c, default)))
  {
    assert [a, b, c][1..] == [b, c];
    ChainOfTwo(r, b, c, default);
  }

  /** A key present in `r` hides every key listed after it, and only those. */
  lemma {:induction false} EarlierPresentKeyWins(r: Record, keys: seq<string>, default: Value, i: nat)
    requires i < |keys| && keys[i] in r
    requires forall j :: 0 <= j < i ==> keys[j] !in r
    ensures FirstPresent(r, keys, default) == r[keys[i]]
  {
    var k := FirstPresentIndex(r, keys);
    assert k == i;
  }
}
