/** The JSON values of json_value.hpp. A std::string is a string with one char for each byte. */
module JsonValue {
  import opened Options

  /** A C++ double, as its 64-bit pattern. */
  type Double = bits: nat | bits < 0x1_0000_0000_0000_0000

  datatype Value =
    | Null
    | Bool(flag: bool)
    | Number(number: Double)
    | String(text: string)
    | Array(elements: seq<Value>)
    | Object(members: seq<Member>)

  datatype Member = Member(key: string, value: Value)

  /** std::from_chars on a whole token, and operator<< of a double: library code, so parameters here. */
  datatype NumberFormat = NumberFormat(read: string -> Option<Double>, show: Double -> string)

  /** Value::find: the first member with the key. */
  function Find(v: Value, key: string): (r: Option<Value>)
    ensures r.Some? <==> v.Object? && exists i :: 0 <= i < |v.members| && v.members[i].key == key
    ensures r.Some? ==> exists i :: 0 <= i < |v.members| && v.members[i] == Member(key, r.value)
                                    && forall j :: 0 <= j < i ==> v.members[j].key != key
  {
    if v.Object? then FindMember(v.members, key) else None
  }

  function FindMember(members: seq<Member>, key: string): (r: Option<Value>)
    ensures r.Some? <==> exists i :: 0 <= i < |members| && members[i].key == key
    ensures r.Some? ==> exists i :: 0 <= i < |members| && members[i] == Member(key, r.value)
                                    && forall j :: 0 <= j < i ==> members[j].key != key
  {
    if members == [] then None
    else if members[0].key == key then
      assert members[0] == Member(key, members[0].value);
      Some(members[0].value)
    else
      var r := FindMember(members[1..], key);
      assert forall i :: 1 <= i < |members| ==> members[i] == members[1..][i - 1];
      assert r.Some? ==> exists i :: 1 <= i < |members| && members[i] == Member(key, r.value)
                                     && forall j :: 0 <= j < i ==> members[j].key != key by {
        if r.Some? {
          var i :| 0 <= i < |members[1..]| && members[1..][i] == Member(key, r.value)
                   && forall j :: 0 <= j < i ==> members[1..][j].key != key;
          forall j | 0 <= j < i + 1 ensures members[j].key != key {
            assert j == 0 || members[j] == members[1..][j - 1];
          }
          assert members[i + 1] == Member(key, r.value);
        }
      }
      r
  }

  /** p holds of every number inside v. */
  ghost predicate AllNumbers(v: Value, p: Double -> bool) {
    match v
    case Number(x) => p(x)
    case Array(elements) => forall i :: 0 <= i < |elements| ==> AllNumbers(elements[i], p)
    case Object(members) => forall i :: 0 <= i < |members| ==> AllNumbers(members[i].value, p)
    case _ => true
  }

  ghost predicate NumberFree(v: Value) {
    AllNumbers(v, _ => false)
  }
}
