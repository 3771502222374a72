/**
 * The query builder of `src/utils.ts`: a project configuration becomes the
 * parameter list the code.quarkus.io generator reads, and that list becomes
 * the download URL.
 */
module QueryBuilder {
  import opened Wrappers
  import opened SearchParams
  import FormUrlEncoded

  /**
   * The form's answers. `group`, `artifact` and `dependencies` are optional
   * fields: `None` stands for `undefined`.
   */
  datatype Configuration = Configuration(
    javaVersion: string,
    quarkusVersion: string,
    buildTool: string,
    group: Option<string>,
    artifact: Option<string>,
    version: string,
    starterCode: bool,
    dependencies: Option<seq<string>>)

  /** The client-name tag sent as `cn`. */
  const ClientName: string := "code.quarkus.io"

  /** JavaScript truthiness of an optional string: defined and not empty. */
  predicate Truthy(s: Option<string>)
  {
    s.Some? && s.value != ""
  }

  /** The dependencies to send, none when the field is absent. */
  function Extensions(c: Configuration): seq<string>
  {
    match c.dependencies
    case Some(ds) => ds
    case None => []
  }

  /** The wire flag `nc` ("no code"), the opposite of the starter-code box. */
  function NoCode(starterCode: bool): (r: string)
    ensures r == "false" <==> starterCode
    ensures r == "true" <==> !starterCode
  {
    if starterCode then "false" else "true"
  }

  /** `if (value) params.set(name, value)`: no call at all when `value` is falsy. */
  function SetIfTruthy(name: string, value: Option<string>): (r: seq<Call>)
    ensures |r| <= 1
  {
    if Truthy(value) then [SetCall(name, value.value)] else []
  }

  /** The `set` calls of the builder, in source order. */
  function FieldCalls(c: Configuration): seq<Call>
  {
    [SetCall("j", c.javaVersion), SetCall("S", c.quarkusVersion), SetCall("cn", ClientName), SetCall("b", c.buildTool)]
    + SetIfTruthy("g", c.group)
    + SetIfTruthy("a", c.artifact)
    + [SetCall("nc", NoCode(c.starterCode)), SetCall("v", c.version)]
  }

  /** The `append("e", d)` calls of the `forEach` over the dependencies. */
  function ExtensionCalls(c: Configuration): (r: seq<Call>)
    ensures |r| == |Extensions(c)|
    ensures forall i :: 0 <= i < |r| ==> r[i].AppendCall?
  {
    seq(|Extensions(c)|, i requires 0 <= i < |Extensions(c)| => AppendCall("e", Extensions(c)[i]))
  }

  /** Every call `getParams` makes on its fresh `URLSearchParams`, in order. */
  function BuilderCalls(c: Configuration): seq<Call>
  {
    FieldCalls(c) + ExtensionCalls(c)
  }

  /** `getParams`: the builder's calls performed on an empty list. */
  function GetParams(c: Configuration): Params
  {
    Run([], BuilderCalls(c))
  }

  /** The pairs of the four fields that are always sent first. */
  function RequiredPairs(c: Configuration): Params
  {
    [("j", c.javaVersion), ("S", c.quarkusVersion), ("cn", ClientName), ("b", c.buildTool)]
  }

  /** The group and artifact pairs, each present only when its field is truthy. */
  function OptionalPairs(c: Configuration): Params
  {
    (if Truthy(c.group) then [("g", c.group.value)] else [])
    + (if Truthy(c.artifact) then [("a", c.artifact.value)] else [])
  }

  /** The starter-code flag and the project version. */
  function TrailingPairs(c: Configuration): Params
  {
    [("nc", NoCode(c.starterCode)), ("v", c.version)]
  }

  /** One `e` pair per dependency, in order. */
  function ExtensionPairs(c: Configuration): (r: Params)
    ensures |r| == |Extensions(c)|
    ensures forall i :: 0 <= i < |r| ==> r[i] == ("e", Extensions(c)[i])
  {
    seq(|Extensions(c)|, i requires 0 <= i < |Extensions(c)| => ("e", Extensions(c)[i]))
  }

  /**
   * The list the generator expects, written out pair by pair: the required
   * fields, the truthy optional ones, the inverted starter-code flag, the
   * version, then the dependencies.
   */
  function WireParams(c: Configuration): Params
  {
    RequiredPairs(c) + OptionalPairs(c) + TrailingPairs(c) + ExtensionPairs(c)
  }

  /** No `set` of the builder meets a name already present. */
  lemma FieldCallsFresh(c: Configuration)
    ensures SetsAreFresh([], FieldCalls(c))
  {
    var names := CallNames(FieldCalls(c));
    FieldNames(c);
    assert Distinct(names);
    assert [] + names == names;
    DistinctFresh([], FieldCalls(c));
  }

  /** The names the `set` calls use, in order. */
  lemma FieldNames(c: Configuration)
    ensures CallNames(FieldCalls(c)) == ["j", "S", "cn", "b"]
      + (if Truthy(c.group) then ["g"] else [])
      + (if Truthy(c.artifact) then ["a"] else [])
      + ["nc", "v"]
  {
  }

  /** Every `set` of the builder, and so every call, is fresh. */
  lemma BuilderCallsFresh(c: Configuration)
    ensures SetsAreFresh([], BuilderCalls(c))
  {
    FieldCallsFresh(c);
    AppendsAreFresh(CallNames(FieldCalls(c)), ExtensionCalls(c));
    assert [] + CallNames(FieldCalls(c)) == CallNames(FieldCalls(c));
    FreshConcat([], FieldCalls(c), ExtensionCalls(c));
  }

  /** The pairs of the builder's calls are the wire layout. */
  lemma BuilderCallsPairs(c: Configuration)
    ensures Pairs(BuilderCalls(c)) == WireParams(c)
  {
  }

  /**
   * Every `set` in the builder meets a name not yet present, so none of them
   * overwrites or removes anything: the list is exactly the wire layout.
   */
  lemma GetParamsIsWire(c: Configuration)
    ensures GetParams(c) == WireParams(c)
  {
    BuilderCallsFresh(c);
    RunFresh([], BuilderCalls(c));
    BuilderCallsPairs(c);
  }

  /** The values held for `name` by the always-sent fields. */
  lemma RequiredGetAll(c: Configuration, name: string)
    ensures GetAll(RequiredPairs(c), name) ==
      (if name == "j" then [c.javaVersion] else [])
      + (if name == "S" then [c.quarkusVersion] else [])
      + (if name == "cn" then [ClientName] else [])
      + (if name == "b" then [c.buildTool] else [])
  {
    var p0, p1, p2, p3 := ("j", c.javaVersion), ("S", c.quarkusVersion), ("cn", ClientName), ("b", c.buildTool);
    assert RequiredPairs(c) == [p0, p1] + [p2, p3];
    GetAllAppend([p0, p1], [p2, p3], name);
    GetAllPair(p0, p1, name);
    GetAllPair(p2, p3, name);
  }

  /** The values held for `name` by the optional fields. */
  lemma OptionalGetAll(c: Configuration, name: string)
    ensures GetAll(OptionalPairs(c), name) ==
      (if name == "g" && Truthy(c.group) then [c.group.value] else [])
      + (if name == "a" && Truthy(c.artifact) then [c.artifact.value] else [])
  {
    var g := if Truthy(c.group) then [("g", c.group.value)] else [];
    var a := if Truthy(c.artifact) then [("a", c.artifact.value)] else [];
    GetAllAppend(g, a, name);
    if Truthy(c.group) { GetAllSingle(("g", c.group.value), name); }
    if Truthy(c.artifact) { GetAllSingle(("a", c.artifact.value), name); }
  }

  /** The values held for `name` by the flag and version pairs. */
  lemma TrailingGetAll(c: Configuration, name: string)
    ensures GetAll(TrailingPairs(c), name) ==
      (if name == "nc" then [NoCode(c.starterCode)] else [])
      + (if name == "v" then [c.version] else [])
  {
    GetAllPair(("nc", NoCode(c.starterCode)), ("v", c.version), name);
  }

  /** The values the wire layout holds for `name`, part by part. */
  lemma WireGetAll(c: Configuration, name: string)
    ensures GetAll(WireParams(c), name) ==
      ((if name == "j" then [c.javaVersion] else [])
        + (if name == "S" then [c.quarkusVersion] else [])
        + (if name == "cn" then [ClientName] else [])
        + (if name == "b" then [c.buildTool] else []))
      + ((if name == "g" && Truthy(c.group) then [c.group.value] else [])
        + (if name == "a" && Truthy(c.artifact) then [c.artifact.value] else []))
      + ((if name == "nc" then [NoCode(c.starterCode)] else [])
        + (if name == "v" then [c.version] else []))
      + (if name == "e" then Extensions(c) else [])
  {
    var r, o, t := RequiredPairs(c), OptionalPairs(c), TrailingPairs(c);
    GetAllAppend(r, o, name);
    GetAllAppend(r + o, t, name);
    GetAllAppend(r + o + t, ExtensionPairs(c), name);
    RequiredGetAll(c, name);
    OptionalGetAll(c, name);
    TrailingGetAll(c, name);
    GetAllUniform(ExtensionPairs(c), "e", Extensions(c), name);
  }

  /** The names in the order the builder writes them. */
  function ExpectedNames(c: Configuration): seq<string>
  {
    ["j", "S", "cn", "b"]
    + (if Truthy(c.group) then ["g"] else [])
    + (if Truthy(c.artifact) then ["a"] else [])
    + ["nc", "v"]
    + seq(|Extensions(c)|, _ => "e")
  }

  /** The names come out in the fixed order, and no other name appears. */
  lemma GetParamsNames(c: Configuration)
    ensures Names(GetParams(c)) == ExpectedNames(c)
  {
    GetParamsIsWire(c);
  }

  /**
   * What the generator reads back under each name: one value for each
   * always-sent field, one for a truthy optional field and none for a falsy
   * one, every dependency under `e`, and nothing under any other name.
   */
  function Sent(c: Configuration, name: string): seq<string>
  {
    if name == "j" then [c.javaVersion]
    else if name == "S" then [c.quarkusVersion]
    else if name == "cn" then [ClientName]
    else if name == "b" then [c.buildTool]
    else if name == "g" then (if Truthy(c.group) then [c.group.value] else [])
    else if name == "a" then (if Truthy(c.artifact) then [c.artifact.value] else [])
    else if name == "nc" then [NoCode(c.starterCode)]
    else if name == "v" then [c.version]
    else if name == "e" then Extensions(c)
    else []
  }

  /** `getAll` on the built list gives, for every name, what the generator expects. */
  lemma GetParamsGetAll(c: Configuration, name: string)
    ensures GetAll(GetParams(c), name) == Sent(c, name)
  {
    GetParamsIsWire(c);
    WireGetAll(c, name);
    if name == "j" {
    } else if name == "S" {
    } else if name == "cn" {
    } else if name == "b" {
    } else if name == "g" {
    } else if name == "a" {
    } else if name == "nc" {
    } else if name == "v" {
    } else if name == "e" {
    }
  }

  /** `j`, `S`, `cn`, `b` and `v` each occur once, carrying the configuration's values. */
  lemma GetParamsRequired(c: Configuration)
    ensures GetAll(GetParams(c), "j") == [c.javaVersion]
    ensures GetAll(GetParams(c), "S") == [c.quarkusVersion]
    ensures GetAll(GetParams(c), "cn") == [ClientName]
    ensures GetAll(GetParams(c), "b") == [c.buildTool]
    ensures GetAll(GetParams(c), "v") == [c.version]
  {
    GetParamsGetAll(c, "j");
    GetParamsGetAll(c, "S");
    GetParamsGetAll(c, "cn");
    GetParamsGetAll(c, "b");
    GetParamsGetAll(c, "v");
  }

  /** `g` and `a` occur, once and with the field's value, exactly when the field is truthy. */
  lemma GetParamsOptional(c: Configuration)
    ensures GetAll(GetParams(c), "g") == (if Truthy(c.group) then [c.group.value] else [])
    ensures GetAll(GetParams(c), "a") == (if Truthy(c.artifact) then [c.artifact.value] else [])
  {
    GetParamsGetAll(c, "g");
    GetParamsGetAll(c, "a");
  }

  /** `nc` occurs once and is `"false"` exactly when starter code is wanted. */
  lemma GetParamsNoCode(c: Configuration)
    ensures |GetAll(GetParams(c), "nc")| == 1
    ensures GetAll(GetParams(c), "nc")[0] == "false" <==> c.starterCode
    ensures GetAll(GetParams(c), "nc")[0] == "true" <==> !c.starterCode
  {
    GetParamsGetAll(c, "nc");
  }

  /** One `e` per dependency, in the input order; none when the field is absent. */
  lemma GetParamsExtensions(c: Configuration)
    ensures GetAll(GetParams(c), "e") == Extensions(c)
    ensures c.dependencies.None? ==> "e" !in Names(GetParams(c))
  {
    GetParamsGetAll(c, "e");
    GetAllEmpty(GetParams(c), "e");
  }

  /** `getCodeQuarkusUrl`: the base URL, `?`, then the serialized list. */
  function CodeQuarkusUrl(baseUrl: string, c: Configuration): (url: string)
    ensures |url| > |baseUrl|
    ensures url[..|baseUrl|] == baseUrl && url[|baseUrl|] == '?'
    ensures FormUrlEncoded.Parse(url[|baseUrl| + 1..]) == Some(GetParams(c))
  {
    var query := FormUrlEncoded.Serialize(GetParams(c));
    FormUrlEncoded.ParseSerialize(GetParams(c));
    var url := baseUrl + "?" + query;
    assert url[|baseUrl| + 1..] == query;
    url
  }
}
