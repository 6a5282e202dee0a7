/** The few Ruby operations the plugin applies to record values: `v['k']`,
    `String#+` on either side, and `"#{v}"` string interpolation. Records and
    values are the JSON-like values msgpack delivers. */
module Ruby {
  import opened Outcome
  import opened Decimal
  import opened Json

  predicate HasKey(members: seq<(string, Value)>, k: string) {
    exists i :: 0 <= i < |members| && members[i].0 == k
  }

  /** The value a Ruby hash built from `members` holds for `k`: a later
      duplicate key overwrites an earlier one; a missing key gives `nil`. */
  function Lookup(members: seq<(string, Value)>, k: string): (v: Value)
    ensures !HasKey(members, k) ==> v == Null
    decreases |members|
  {
    if members == [] then Null
    else if members[|members| - 1].0 == k then members[|members| - 1].1
    else Lookup(members[..|members| - 1], k)
  }

  /** A value a Ruby hash can hold: no object in it has the same key twice,
      at any depth. Records built by Ruby code are of this kind. */
  predicate DistinctKeys(v: Value)
    decreases v
  {
    match v
    case Arr(items) => forall i :: 0 <= i < |items| ==> DistinctKeys(items[i])
    case Obj(members) =>
      && (forall i, j :: 0 <= i < j < |members| ==> members[i].0 != members[j].0)
      && (forall i :: 0 <= i < |members| ==> DistinctKeys(members[i].1))
    case _ => true
  }

  /** Substring test behind `String#[]` with a string argument. */
  predicate Contains(s: string, k: string)
    decreases |s|
  {
    |k| <= |s| && (s[..|k|] == k || Contains(s[1..], k))
  }

  /** `v[k]` for a string `k`: a hash looks the key up, a string answers
      whether it contains `k`, `nil` and booleans have no `[]`, and integers
      and arrays refuse a string index. */
  function Index(v: Value, k: string): Result<Value, Failure> {
    match v
    case Obj(members) => Ok(Lookup(members, k))
    case Str(s) => Ok(if Contains(s, k) then Str(k) else Null)
    case Null => Err(NoMethodError)
    case Bool(_) => Err(NoMethodError)
    case Int(_) => Err(TypeError)
    case Arr(_) => Err(TypeError)
  }

  /** `v[k1][k2]...`, stopping at the first failing step. */
  function IndexPath(v: Value, keys: seq<string>): (r: Result<Value, Failure>)
    decreases |keys|
  {
    if keys == [] then Ok(v)
    else
      match Index(v, keys[0])
      case Err(e) => Err(e)
      case Ok(w) => IndexPath(w, keys[1..])
  }

  /** The argument of `String#+`: only a string can be appended. */
  function StringArgument(v: Value): Result<string, Failure> {
    if v.Str? then Ok(v.s) else Err(TypeError)
  }

  /** `v + t` for a string `t`: a string concatenates, an integer or array
      cannot take a string, other values have no `+`. */
  function PlusString(v: Value, t: string): Result<string, Failure> {
    match v
    case Str(s) => Ok(s + t)
    case Int(_) => Err(TypeError)
    case Arr(_) => Err(TypeError)
    case _ => Err(NoMethodError)
  }

  /** `"#{v}"`: `to_s` of the value. Hashes and arrays print through
      `inspect`, which is not part of this model. */
  function ToS(v: Value): (r: Result<string, Failure>)
    ensures r.Err? <==> v.Arr? || v.Obj?
    ensures v.Null? ==> r == Ok("")
    ensures v.Str? ==> r == Ok(v.s)
    ensures v.Int? ==> r.Ok? && ParseInt(r.value) == Some(v.i)
  {
    match v
    case Null => Ok("")
    case Bool(b) => Ok(if b then "true" else "false")
    case Int(i) => IntToStringRoundTrip(i); Ok(IntToString(i))
    case Str(s) => Ok(s)
    case Arr(_) => Err(OutsideModel("inspect of an array"))
    case Obj(_) => Err(OutsideModel("inspect of a hash"))
  }

  // ---------------------------------------------------------------------------
  // Facts

  /** The value found is the one of the last member with that key. */
  lemma {:induction false} LookupLast(members: seq<(string, Value)>, k: string, i: nat)
    requires i < |members| && members[i].0 == k
    requires forall j :: i < j < |members| ==> members[j].0 != k
    ensures Lookup(members, k) == members[i].1
    decreases |members|
  {
    if i < |members| - 1 {
      var prefix := members[..|members| - 1];
      assert forall j :: i < j < |prefix| ==> prefix[j] == members[j];
      LookupLast(prefix, k, i);
    }
  }

  /** With distinct keys, the hash holds every member's own value: the
      members are exactly what a Ruby hash with these pairs contains. */
  lemma HashMembersAgree(members: seq<(string, Value)>)
    requires forall i, j :: 0 <= i < j < |members| ==> members[i].0 != members[j].0
    ensures forall i :: 0 <= i < |members| ==> Lookup(members, members[i].0) == members[i].1
  {
    forall i | 0 <= i < |members|
      ensures Lookup(members, members[i].0) == members[i].1
    {
      LookupLast(members, members[i].0, i);
    }
  }

  /** A key that is present is found, and what is found belongs to it. */
  lemma {:induction false} LookupPresent(members: seq<(string, Value)>, k: string)
    requires HasKey(members, k)
    ensures exists i :: 0 <= i < |members| && members[i].0 == k && members[i].1 == Lookup(members, k)
    decreases |members|
  {
    var last := |members| - 1;
    if members[last].0 != k {
      var prefix := members[..last];
      var i :| 0 <= i < |members| && members[i].0 == k;
      assert prefix[i] == members[i];
      LookupPresent(prefix, k);
      var j :| 0 <= j < |prefix| && prefix[j].0 == k && prefix[j].1 == Lookup(prefix, k);
      assert members[j] == prefix[j];
    }
  }

  /** Following a path is following its first part, then the rest. */
  lemma {:induction false} IndexPathAppend(v: Value, keys: seq<string>, more: seq<string>)
    ensures IndexPath(v, keys + more) ==
      match IndexPath(v, keys)
      case Err(e) => Err(e)
      case Ok(w) => IndexPath(w, more)
    decreases |keys|
  {
    if keys == [] {
      assert keys + more == more;
    } else {
      assert (keys + more)[0] == keys[0] && (keys + more)[1..] == keys[1..] + more;
      match Index(v, keys[0])
      case Err(_) =>
      case Ok(w) => IndexPathAppend(w, keys[1..], more);
    }
  }
}
