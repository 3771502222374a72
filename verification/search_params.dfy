/**
 * The list behind a `URLSearchParams` object and the three operations the
 * query builder uses on it: `set`, `append` and `getAll` (section 6.2 of the
 * WHATWG URL Standard).
 */
module SearchParams {
  import FormUrlEncoded

  type Params = FormUrlEncoded.Params

  /** The names of the list, in order. */
  function Names(ps: Params): (r: seq<string>)
    ensures |r| == |ps|
    ensures forall i :: 0 <= i < |ps| ==> r[i] == ps[i].0
  {
    seq(|ps|, i requires 0 <= i < |ps| => ps[i].0)
  }

  /** `getAll(name)`: the values paired with `name`, in list order. */
  function GetAll(ps: Params, name: string): (r: seq<string>)
    ensures |r| <= |ps|
    decreases |ps|
  {
    if |ps| == 0 then []
    else
      var rest := GetAll(ps[1..], name);
      if ps[0].0 == name then [ps[0].1] + rest else rest
  }

  /** A name has no values exactly when it is not in the list. */
  lemma {:induction false} GetAllEmpty(ps: Params, name: string)
    ensures GetAll(ps, name) == [] <==> name !in Names(ps)
    decreases |ps|
  {
    if |ps| > 0 {
      assert Names(ps) == [ps[0].0] + Names(ps[1..]);
      GetAllEmpty(ps[1..], name);
    }
  }

  lemma {:induction false} GetAllAppend(a: Params, b: Params, name: string)
    ensures GetAll(a + b, name) == GetAll(a, name) + GetAll(b, name)
    decreases |a|
  {
    if |a| > 0 {
      assert (a + b)[1..] == a[1..] + b;
      GetAllAppend(a[1..], b, name);
    } else {
      assert a + b == b;
    }
  }

  lemma GetAllSingle(p: (string, string), name: string)
    ensures GetAll([p], name) == if p.0 == name then [p.1] else []
  {
    assert [p][1..] == [];
  }

  lemma GetAllPair(p: (string, string), q: (string, string), name: string)
    ensures GetAll([p, q], name) == (if p.0 == name then [p.1] else []) + (if q.0 == name then [q.1] else [])
  {
    assert [p, q] == [p] + [q];
    GetAllCons(p, [q], name);
    GetAllSingle(q, name);
  }

  lemma GetAllCons(p: (string, string), ps: Params, name: string)
    ensures GetAll([p] + ps, name) == (if p.0 == name then [p.1] else []) + GetAll(ps, name)
  {
    assert ([p] + ps)[1..] == ps;
  }

  /** `getAll` of a list whose pairs all share one name. */
  lemma {:induction false} GetAllUniform(ps: Params, key: string, values: seq<string>, name: string)
    requires |ps| == |values|
    requires forall i :: 0 <= i < |ps| ==> ps[i] == (key, values[i])
    ensures GetAll(ps, name) == if key == name then values else []
    decreases |values|
  {
    if |values| > 0 {
      GetAllUniform(ps[1..], key, values[1..], name);
      assert [values[0]] + values[1..] == values;
    }
  }

  /** `append(name, value)`: adds the pair at the end. */
  function Append(ps: Params, name: string, value: string): (r: Params)
    ensures Names(r) == Names(ps) + [name]
    ensures GetAll(r, name) == GetAll(ps, name) + [value]
    ensures forall n :: n != name ==> GetAll(r, n) == GetAll(ps, n)
  {
    var r := ps + [(name, value)];
    forall n
      ensures GetAll(r, n) == GetAll(ps, n) + GetAll([(name, value)], n)
    {
      GetAllAppend(ps, [(name, value)], n);
    }
    r
  }

  /** Drops every pair named `name`. */
  function RemoveAll(ps: Params, name: string): (r: Params)
    ensures name !in Names(r)
    ensures forall n :: n != name ==> GetAll(r, n) == GetAll(ps, n)
    decreases |ps|
  {
    if |ps| == 0 then []
    else if ps[0].0 == name then RemoveAll(ps[1..], name)
    else [ps[0]] + RemoveAll(ps[1..], name)
  }

  /** The position of the first pair named `name`. */
  function FirstIndex(ps: Params, name: string): (k: nat)
    requires name in Names(ps)
    ensures k < |ps| && ps[k].0 == name
    ensures forall i :: 0 <= i < k ==> ps[i].0 != name
    decreases |ps|
  {
    if ps[0].0 == name then 0
    else
      assert Names(ps) == [ps[0].0] + Names(ps[1..]);
      1 + FirstIndex(ps[1..], name)
  }

  /** Gives the first pair named `name` the value `value` and drops the later ones. */
  function ReplaceFirst(ps: Params, name: string, value: string): (r: Params)
    requires name in Names(ps)
    ensures GetAll(r, name) == [value]
    ensures forall n :: n != name ==> GetAll(r, n) == GetAll(ps, n)
  {
    var k := FirstIndex(ps, name);
    ReplaceAtNamed(ps, name, value, k);
    ReplaceAtOthers(ps, name, value, k);
    ps[..k] + [(name, value)] + RemoveAll(ps[k + 1..], name)
  }

  /** Replacing the first `name` leaves `value` as its only value. */
  lemma ReplaceAtNamed(ps: Params, name: string, value: string, k: nat)
    requires k < |ps| && forall i :: 0 <= i < k ==> ps[i].0 != name
    ensures GetAll(ps[..k] + [(name, value)] + RemoveAll(ps[k + 1..], name), name) == [value]
  {
    var a, b := ps[..k], RemoveAll(ps[k + 1..], name);
    assert name !in Names(a) by {
      forall i | 0 <= i < |a| ensures Names(a)[i] != name {
        assert a[i] == ps[i];
      }
    }
    GetAllEmpty(a, name);
    GetAllEmpty(b, name);
    GetAllAppend(a + [(name, value)], b, name);
    GetAllAppend(a, [(name, value)], name);
    GetAllSingle((name, value), name);
  }

  /** Replacing the first `name` pair leaves every other name's values alone. */
  lemma ReplaceAtOthers(ps: Params, name: string, value: string, k: nat)
    requires k < |ps| && ps[k].0 == name
    ensures forall n :: n != name ==>
      GetAll(ps[..k] + [(name, value)] + RemoveAll(ps[k + 1..], name), n) == GetAll(ps, n)
  {
    var a, b := ps[..k], ps[k + 1..];
    assert ps == a + [ps[k]] + b;
    forall n | n != name
      ensures GetAll(a + [(name, value)] + RemoveAll(b, name), n) == GetAll(ps, n)
    {
      GetAllAppend(a + [(name, value)], RemoveAll(b, name), n);
      GetAllAppend(a, [(name, value)], n);
      GetAllSingle((name, value), n);
      GetAllAppend(a + [ps[k]], b, n);
      GetAllAppend(a, [ps[k]], n);
      GetAllSingle(ps[k], n);
    }
  }

  /**
   * `set(name, value)`: if a pair with `name` exists, the first one takes
   * `value` in place and the others are removed; otherwise the pair is
   * appended.
   */
  function Set(ps: Params, name: string, value: string): (r: Params)
    ensures GetAll(r, name) == [value]
    ensures forall n :: n != name ==> GetAll(r, n) == GetAll(ps, n)
    ensures name !in Names(ps) ==> r == ps + [(name, value)]
    ensures name in Names(ps) ==> var k := FirstIndex(ps, name);
      r == ps[..k] + [(name, value)] + RemoveAll(ps[k + 1..], name)
  {
    if name in Names(ps) then ReplaceFirst(ps, name, value)
    else
      GetAllEmpty(ps, name);
      Append(ps, name, value)
  }

  /** Setting a name already present rewrites its first pair in place. */
  lemma SetInPlace()
    ensures Set([("a", "1"), ("b", "2")], "a", "3") == [("a", "3"), ("b", "2")]
  {
  }

  /** One mutating call on a `URLSearchParams` object. */
  datatype Call = SetCall(name: string, value: string) | AppendCall(name: string, value: string)

  /** Performs one call. */
  function Apply(ps: Params, call: Call): Params
  {
    match call
    case SetCall(n, v) => Set(ps, n, v)
    case AppendCall(n, v) => Append(ps, n, v)
  }

  /** Performs the calls in order, starting from `ps`. */
  function Run(ps: Params, calls: seq<Call>): Params
    decreases |calls|
  {
    if |calls| == 0 then ps else Run(Apply(ps, calls[0]), calls[1..])
  }

  /** The pair each call would append. */
  function Pairs(calls: seq<Call>): (r: Params)
    ensures |r| == |calls|
    ensures forall i :: 0 <= i < |calls| ==> r[i] == (calls[i].name, calls[i].value)
  {
    seq(|calls|, i requires 0 <= i < |calls| => (calls[i].name, calls[i].value))
  }

  /**
   * Every `set` in `calls` names something absent from `names` and from the
   * calls before it: the names present at the time of the call, provided the
   * earlier calls only appended.
   */
  predicate SetsAreFresh(names: seq<string>, calls: seq<Call>)
    decreases |calls|
  {
    |calls| == 0
    || ((calls[0].SetCall? ==> calls[0].name !in names)
        && SetsAreFresh(names + [calls[0].name], calls[1..]))
  }

  /** A fresh `set`, like an `append`, adds its pair at the end. */
  lemma ApplyFresh(ps: Params, call: Call)
    requires call.SetCall? ==> call.name !in Names(ps)
    ensures Apply(ps, call) == ps + [(call.name, call.value)]
  {
  }

  /** When every `set` is fresh, each call just appends its pair. */
  lemma {:induction false} RunFresh(ps: Params, calls: seq<Call>)
    requires SetsAreFresh(Names(ps), calls)
    ensures Run(ps, calls) == ps + Pairs(calls)
    decreases |calls|
  {
    if |calls| > 0 {
      var next := RunStep(ps, calls);
      RunFresh(next, calls[1..]);
      PairsStep(ps, calls);
    }
  }

  /** The first call of a fresh run appends its pair and leaves the rest fresh. */
  lemma RunStep(ps: Params, calls: seq<Call>) returns (next: Params)
    requires |calls| > 0 && SetsAreFresh(Names(ps), calls)
    ensures next == ps + [(calls[0].name, calls[0].value)]
    ensures Run(ps, calls) == Run(next, calls[1..])
    ensures SetsAreFresh(Names(next), calls[1..])
  {
    var c := calls[0];
    next := ps + [(c.name, c.value)];
    ApplyFresh(ps, c);
    assert Names(next) == Names(ps) + [c.name];
  }

  lemma PairsStep(ps: Params, calls: seq<Call>)
    requires |calls| > 0
    ensures ps + [(calls[0].name, calls[0].value)] + Pairs(calls[1..]) == ps + Pairs(calls)
  {
    var x, rest := (calls[0].name, calls[0].value), Pairs(calls[1..]);
    assert Pairs(calls) == [x] + rest;
    assert ps + [x] + rest == ps + ([x] + rest);
  }

  /** Calls that only append never break freshness. */
  lemma {:induction false} AppendsAreFresh(names: seq<string>, calls: seq<Call>)
    requires forall i :: 0 <= i < |calls| ==> calls[i].AppendCall?
    ensures SetsAreFresh(names, calls)
    decreases |calls|
  {
    if |calls| > 0 {
      AppendsAreFresh(names + [calls[0].name], calls[1..]);
    }
  }

  /** The names of the calls, in order. */
  function CallNames(calls: seq<Call>): (r: seq<string>)
    ensures |r| == |calls|
    ensures forall i :: 0 <= i < |calls| ==> r[i] == calls[i].name
  {
    seq(|calls|, i requires 0 <= i < |calls| => calls[i].name)
  }

  lemma ConsFacts(names: seq<string>, a: seq<Call>, b: seq<Call>)
    requires |a| > 0
    ensures names + [a[0].name] + CallNames(a[1..]) == names + CallNames(a)
    ensures (a + b)[0] == a[0] && (a + b)[1..] == a[1..] + b
  {
    assert CallNames(a) == [a[0].name] + CallNames(a[1..]);
  }

  /** Freshness of a concatenation splits into freshness of its halves. */
  lemma {:induction false} FreshConcat(names: seq<string>, a: seq<Call>, b: seq<Call>)
    requires SetsAreFresh(names, a)
    requires SetsAreFresh(names + CallNames(a), b)
    ensures SetsAreFresh(names, a + b)
    decreases |a|
  {
    if |a| == 0 {
      assert a + b == b && names + CallNames(a) == names;
    } else {
      ConsFacts(names, a, b);
      FreshConcat(names + [a[0].name], a[1..], b);
    }
  }

  /** No name occurs twice. */
  predicate Distinct(names: seq<string>)
  {
    forall i, j :: 0 <= i < j < |names| ==> names[i] != names[j]
  }

  /** Calls with pairwise different names, none already present, are fresh. */
  lemma {:induction false} DistinctFresh(names: seq<string>, calls: seq<Call>)
    requires Distinct(names + CallNames(calls))
    ensures SetsAreFresh(names, calls)
    decreases |calls|
  {
    if |calls| > 0 {
      var all := names + CallNames(calls);
      assert all[|names|] == calls[0].name;
      assert calls[0].name !in names by {
        forall i | 0 <= i < |names| ensures names[i] != calls[0].name {
          assert all[i] == names[i];
        }
      }
      assert names + [calls[0].name] + CallNames(calls[1..]) == all by {
        assert CallNames(calls) == [calls[0].name] + CallNames(calls[1..]);
      }
      DistinctFresh(names + [calls[0].name], calls[1..]);
    }
  }
}
