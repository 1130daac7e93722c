/** JSON as Go decodes it: numbers are whole, object keys are unique and unordered. */
module JsonValues {

  type Fields = map<string, Json>

  datatype Json =
    | Null
    | Bool(b: bool)
    | Number(n: int)
    | String(s: string)
    | Array(items: seq<Json>)
    | Object(fields: Fields)

  /** Go's `value, _ := m[key].(string)`. */
  function StringIn(m: Fields, key: string): string {
    if key in m && m[key].String? then m[key].s else ""
  }

  /** Go's `value, _ := m[key].(map[string]any)`, with nil read as empty. */
  function FieldsIn(m: Fields, key: string): Fields {
    if key in m && m[key].Object? then m[key].fields else map[]
  }

  /** The strings of an array, in order; anything else in it is skipped. */
  function Strings(items: seq<Json>): seq<string> {
    if items == [] then []
    else (if items[0].String? then [items[0].s] else []) + Strings(items[1..])
  }

  function ItemsIn(m: Fields, key: string): seq<Json> {
    if key in m && m[key].Array? then m[key].items else []
  }

  /** Both have the field with one value, or neither has it. */
  ghost predicate SameField(m: Fields, n: Fields, key: string) {
    (key in m <==> key in n) && (key in m ==> m[key] == n[key])
  }

  lemma SameFieldsSameMap(m: Fields, n: Fields)
    ensures m == n <==> forall key :: SameField(m, n, key)
  {
    if forall key :: SameField(m, n, key) {
      forall key
        ensures (key in m <==> key in n) && (key in m ==> m[key] == n[key])
      {
        assert SameField(m, n, key);
      }
    }
  }

  lemma SameRest(m: Fields, n: Fields, keys: set<string>)
    ensures m - keys == n - keys <==> forall key | key !in keys :: SameField(m, n, key)
  {
    SameFieldsSameMap(m - keys, n - keys);
    forall key
      ensures SameField(m - keys, n - keys, key) <==> (key !in keys ==> SameField(m, n, key))
    {
    }
  }
}
