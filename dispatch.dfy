/**
 * The request dispatcher of GitGraphServer: the servlet field holding the
 * registry, doGet (resolution, parameter merge, status codes), runCypher
 * (concatenation of the result records) and loadConfiguration (reload or keep).
 */
module Dispatch {
  import opened Wrappers
  import opened Registry

  const StatusOk := 200
  const StatusNotFound := 404
  const StatusInternalServerError := 500

  /** The unchecked exceptions doGet can end in. */
  datatype Fault =
    | NoPathInfo    // getPathInfo() returned null
    | PathTooShort  // substring(1) of an empty path
    | UnnamedApi    // name.equals on an entry whose name is null
    | QueryFailed   // the database driver threw

  /** What a GET request ends in: a status with the body written, or an exception. */
  datatype Outcome = Reply(status: int, body: string) | Thrown(fault: Fault)

  /** A script and the parameters it is run with. */
  datatype Query = Query(script: Option<string>, params: map<string, string>)

  /**
   * The Neo4j session: runs a query and gives the string form of each
   * record in order, or None when the driver throws.
   */
  type Executor = Query -> Option<seq<string>>

  /** The result of scanning the registry for a name. */
  datatype Match = Found(api: Api) | NotFound | NullName

  // ---------------------------------------------------------------- resolution

  /** Entry i is named `name` and no later entry is. */
  predicate IsLastMatch(config: seq<Api>, name: string, i: int)
    requires 0 <= i < |config|
  {
    config[i].name == Some(name) && forall j :: i < j < |config| ==> config[j].name != Some(name)
  }

  predicate AllNamed(config: seq<Api>) {
    forall i :: 0 <= i < |config| ==> config[i].name.Some?
  }

  /** The entry named `name` nearest the end of the registry. */
  function LastNamed(config: seq<Api>, name: string): (found: Option<Api>)
  {
    if config == [] then None
    else if config[|config| - 1].name == Some(name) then Some(config[|config| - 1])
    else LastNamed(config[..|config| - 1], name)
  }

  /** Resolution as doGet performs it: an unnamed entry anywhere makes the scan throw. */
  function Find(config: seq<Api>, name: string): (m: Match)
  {
    if !AllNamed(config) then NullName
    else match LastNamed(config, name)
      case None => NotFound
      case Some(api) => Found(api)
  }

  /** No entry of the registry carries the name. */
  predicate NoneNamed(config: seq<Api>, name: string) {
    forall i :: 0 <= i < |config| ==> config[i].name != Some(name)
  }

  /** The scan finds nothing exactly when no entry carries the name. */
  lemma {:induction false} LastNamedNone(config: seq<Api>, name: string)
    ensures LastNamed(config, name).None? <==> NoneNamed(config, name)
  {
    if config != [] {
      var n := |config| - 1;
      var front := config[..n];
      LastNamedNone(front, name);
      if config[n].name == Some(name) {
        assert !NoneNamed(config, name);
      } else {
        assert LastNamed(config, name) == LastNamed(front, name);
        if NoneNamed(front, name) {
          forall i | 0 <= i < |config| ensures config[i].name != Some(name) {
            if i < n {
              assert config[i] == front[i];
            }
          }
        } else {
          var i :| 0 <= i < |front| && front[i].name == Some(name);
          assert config[i] == front[i];
        }
      }
    }
  }

  /** When entry i is the last carrying the name, the scan finds entry i. */
  lemma {:induction false} LastNamedAt(config: seq<Api>, name: string, i: int)
    requires 0 <= i < |config| && IsLastMatch(config, name, i)
    ensures LastNamed(config, name) == Some(config[i])
  {
    var n := |config| - 1;
    if i < n {
      var front := config[..n];
      assert config[n].name != Some(name);
      assert LastNamed(config, name) == LastNamed(front, name);
      assert IsLastMatch(front, name, i) by {
        forall j | i < j < |front| ensures front[j].name != Some(name) {
          assert front[j] == config[j];
        }
      }
      LastNamedAt(front, name, i);
    }
  }

  /**
   * What resolution yields: an exception when some entry is unnamed; otherwise
   * 404 exactly when no entry has the name, and the last entry having it when
   * one does (earlier same-named entries are passed over).
   */
  lemma FindSpec(config: seq<Api>, name: string)
    ensures Find(config, name) == NullName <==> !AllNamed(config)
    ensures Find(config, name) == NotFound <==> AllNamed(config) && NoneNamed(config, name)
    ensures forall i :: 0 <= i < |config| && AllNamed(config) && IsLastMatch(config, name, i) ==>
      Find(config, name) == Found(config[i])
  {
    LastNamedNone(config, name);
    forall i | 0 <= i < |config| && AllNamed(config) && IsLastMatch(config, name, i)
      ensures Find(config, name) == Found(config[i])
    {
      LastNamedAt(config, name, i);
    }
  }

  /** The scan of doGet: every entry is visited and a match replaces the one found before. */
  method Resolve(config: seq<Api>, name: string) returns (m: Match)
    ensures m == Find(config, name)
  {
    var api: Option<Api> := None;
    var i := 0;
    while i < |config|
      invariant 0 <= i <= |config|
      invariant AllNamed(config[..i])
      invariant api == LastNamed(config[..i], name)
    {
      var entry := config[i];
      assert config[..i + 1][..i] == config[..i];
      if entry.name.None? {
        assert !AllNamed(config);
        return NullName;
      }
      if entry.name.value == name {
        api := Some(entry);
      }
      i := i + 1;
    }
    assert config[..i] == config;
    match api
    case None => m := NotFound;
    case Some(a) => m := Found(a);
  }

  // ------------------------------------------------------------ parameter merge

  /**
   * The parameters a query runs with: a copy of the defaults, then every
   * parameter of the caller put over it.
   */
  method MergeParams(defaults: map<string, string>, caller: map<string, string>) returns (params: map<string, string>)
    ensures params.Keys == defaults.Keys + caller.Keys
    ensures forall k :: k in caller ==> params[k] == caller[k]
    ensures forall k :: k in defaults && k !in caller ==> params[k] == defaults[k]
    ensures params == defaults + caller
  {
    params := defaults;
    var rest := caller.Keys;
    while rest != {}
      invariant rest <= caller.Keys
      invariant params.Keys == defaults.Keys + (caller.Keys - rest)
      invariant forall k :: k in caller && k !in rest ==> params[k] == caller[k]
      invariant forall k :: k in defaults && (k !in caller || k in rest) ==> params[k] == defaults[k]
      decreases rest
    {
      var k :| k in rest;
      params := params[k := caller[k]];
      rest := rest - {k};
    }
  }

  // --------------------------------------------------------- result formatting

  /** The string forms of the records joined in order, with no separator. */
  function Concat(records: seq<string>): (body: string)
  {
    if records == [] then "" else Concat(records[..|records| - 1]) + records[|records| - 1]
  }

  /** Joining is a homomorphism from sequence concatenation to string concatenation. */
  lemma {:induction false} ConcatAppend(a: seq<string>, b: seq<string>)
    ensures Concat(a + b) == Concat(a) + Concat(b)
  {
    if b != [] {
      var n := |b| - 1;
      var ab := a + b;
      assert ab[..|ab| - 1] == a + b[..n];
      assert ab[|ab| - 1] == b[n];
      ConcatAppend(a, b[..n]);
      assert Concat(ab) == Concat(a + b[..n]) + b[n];
    } else {
      assert a + b == a;
    }
  }

  /** Record i sits, unseparated, between the records before it and those after it. */
  lemma ConcatAt(records: seq<string>, i: int)
    requires 0 <= i < |records|
    ensures Concat(records) == Concat(records[..i]) + records[i] + Concat(records[i + 1..])
  {
    var before, after := records[..i], records[i + 1..];
    var upTo := records[..i + 1];
    assert records == upTo + after;
    ConcatAppend(upTo, after);
    assert upTo != [] && upTo[..|upTo| - 1] == before && upTo[|upTo| - 1] == records[i];
    assert Concat(upTo) == Concat(before) + records[i];
  }

  /** The loop of runCypher: appends the string form of each record to "". */
  method JoinRecords(records: seq<string>) returns (body: string)
    ensures body == Concat(records)
  {
    body := "";
    var i := 0;
    while i < |records|
      invariant 0 <= i <= |records|
      invariant body == Concat(records[..i])
    {
      assert records[..i + 1][..i] == records[..i];
      body := body + records[i];
      i := i + 1;
    }
    assert records[..i] == records;
  }

  // ------------------------------------------------------------ request handling

  /** How far a request gets before the database: a final outcome, or the query to run. */
  datatype Step = Stop(outcome: Outcome) | Run(query: Query)

  /** doGet up to the call of runCypher. */
  function Route(config: Option<seq<Api>>, pathInfo: Option<string>, caller: map<string, string>): (step: Step)
  {
    if pathInfo.None? then Stop(Thrown(NoPathInfo))
    else if |pathInfo.value| == 0 then Stop(Thrown(PathTooShort))
    else if config.None? then Stop(Reply(StatusInternalServerError, ""))
    else match Find(config.value, pathInfo.value[1..])
      case NullName => Stop(Thrown(UnnamedApi))
      case NotFound => Stop(Reply(StatusNotFound, ""))
      case Found(api) => Run(Query(api.script, api.inputs + caller))
  }

  /** doGet as a whole. */
  function Respond(config: Option<seq<Api>>, pathInfo: Option<string>, caller: map<string, string>, database: Executor): (outcome: Outcome)
  {
    match Route(config, pathInfo, caller)
    case Stop(outcome) => outcome
    case Run(query) =>
      match database(query)
      case None => Thrown(QueryFailed)
      case Some(records) => Reply(StatusOk, Concat(records))
  }

  /** The queries a request hands to the database: one when it gets that far, none otherwise. */
  function Submission(step: Step): (queries: seq<Query>)
  {
    if step.Run? then [step.query] else []
  }

  /** With no registry loaded, a request with a path gets 500 and runs nothing. */
  lemma NoRegistryIs500(path: string, caller: map<string, string>, database: Executor)
    requires |path| > 0
    ensures Route(None, Some(path), caller) == Stop(Reply(StatusInternalServerError, ""))
    ensures Respond(None, Some(path), caller, database) == Reply(StatusInternalServerError, "")
  {
  }

  /** A name no entry carries gets 404 and runs nothing. */
  lemma UnknownNameIs404(config: seq<Api>, path: string, caller: map<string, string>, database: Executor)
    requires |path| > 0 && AllNamed(config)
    requires NoneNamed(config, path[1..])
    ensures Route(Some(config), Some(path), caller) == Stop(Reply(StatusNotFound, ""))
    ensures Respond(Some(config), Some(path), caller, database) == Reply(StatusNotFound, "")
  {
    FindSpec(config, path[1..]);
  }

  /** An unnamed entry anywhere in the registry makes every request with a path throw. */
  lemma UnnamedEntryThrows(config: seq<Api>, path: string, caller: map<string, string>, database: Executor)
    requires |path| > 0 && !AllNamed(config)
    ensures Respond(Some(config), Some(path), caller, database) == Thrown(UnnamedApi)
  {
  }

  /**
   * A request for the name of the last entry carrying it runs that entry's
   * script with its defaults overridden by the caller's parameters, and
   * answers 200 with the records joined in order.
   */
  lemma LastMatchRuns(config: seq<Api>, path: string, caller: map<string, string>, database: Executor, i: int)
    requires |path| > 0 && AllNamed(config)
    requires 0 <= i < |config| && IsLastMatch(config, path[1..], i)
    ensures Route(Some(config), Some(path), caller) == Run(Query(config[i].script, config[i].inputs + caller))
    ensures database(Query(config[i].script, config[i].inputs + caller)).Some? ==>
      Respond(Some(config), Some(path), caller, database)
        == Reply(StatusOk, Concat(database(Query(config[i].script, config[i].inputs + caller)).value))
  {
    FindSpec(config, path[1..]);
  }

  /** A status other than 200 is only ever answered without running a query. */
  lemma ErrorStatusRunsNothing(config: Option<seq<Api>>, pathInfo: Option<string>, caller: map<string, string>, database: Executor)
    ensures Respond(config, pathInfo, caller, database).Reply? && Respond(config, pathInfo, caller, database).status != StatusOk
      ==> Submission(Route(config, pathInfo, caller)) == []
  {
  }

  /**
   * One `getUser` entry with default id "0": a request for it with id=42 runs
   * its script with id "42", and one without parameters runs it with id "0".
   */
  lemma GetUserScenario()
    ensures var api := BuildApi(ApiNode(["getUser"], [], ["MATCH (u:User {id:$id}) RETURN u"], [InputNode("id", "0")]));
      && Route(Some([api]), Some("/getUser"), map["id" := "42"])
           == Run(Query(Some("MATCH (u:User {id:$id}) RETURN u"), map["id" := "42"]))
      && Route(Some([api]), Some("/getUser"), map[])
           == Run(Query(Some("MATCH (u:User {id:$id}) RETURN u"), map["id" := "0"]))
      && Route(Some([api]), Some("/unknownApi"), map[]) == Stop(Reply(StatusNotFound, ""))
  {
  }

  /**
   * The servlet. It holds the registry (null until a load succeeds) and the
   * database connection; Submitted records, for the proofs, every query
   * handed to the database.
   */
  class Dispatcher {
    var config: Option<seq<Api>>
    const database: Executor
    ghost var Submitted: seq<Query>

    /** init(): load the configuration, then connect to the database. */
    constructor (doc: Option<seq<ApiNode>>, database: Executor)
      ensures doc.None? ==> config == None
      ensures doc.Some? ==> (config.Some? && |config.value| == |doc.value|
        && forall i :: 0 <= i < |doc.value| ==> config.value[i] == BuildApi(doc.value[i]))
      ensures this.database == database && Submitted == []
    {
      config := None;
      this.database := database;
      Submitted := [];
      new;
      Load(doc);
    }

    /**
     * loadConfiguration: doc is the parsed document, None when it could not
     * be read or parsed. A failed load keeps the registry held before; a
     * successful one replaces it as a whole.
     */
    method Load(doc: Option<seq<ApiNode>>)
      modifies this`config
      ensures doc.None? ==> config == old(config)
      ensures doc.Some? ==> (config.Some? && |config.value| == |doc.value|
        && forall i :: 0 <= i < |doc.value| ==> config.value[i] == BuildApi(doc.value[i]))
    {
      if doc.Some? {
        var apis := ParseConfig(doc.value);
        config := Some(apis);
      }
    }

    /**
     * runCypher: hands the query to the database, which logs it, and joins
     * the string forms of the records it returns; None when the driver throws.
     */
    method RunCypher(query: Query) returns (result: Option<string>)
      modifies this`Submitted
      ensures Submitted == old(Submitted) + [query]
      ensures result.None? <==> database(query).None?
      ensures result.Some? ==> result.value == Concat(database(query).value)
    {
      Submitted := Submitted + [query];
      var records := database(query);
      if records.None? {
        return None;
      }
      var body := JoinRecords(records.value);
      return Some(body);
    }

    /** doGet. */
    method Handle(pathInfo: Option<string>, caller: map<string, string>) returns (r: Outcome)
      modifies this`Submitted
      ensures r == Respond(config, pathInfo, caller, database)
      ensures Submitted == old(Submitted) + Submission(Route(config, pathInfo, caller))
      ensures r.Reply? && r.status != StatusOk ==> Submitted == old(Submitted)
    {
      if pathInfo.None? {
        return Thrown(NoPathInfo);
      }
      if |pathInfo.value| == 0 {
        return Thrown(PathTooShort);
      }
      var name := pathInfo.value[1..];
      var registry := config;
      if registry.None? {
        return Reply(StatusInternalServerError, "");
      }
      var found := Resolve(registry.value, name);
      match found {
        case NullName =>
          return Thrown(UnnamedApi);
        case NotFound =>
          return Reply(StatusNotFound, "");
        case Found(api) =>
          var params := MergeParams(api.inputs, caller);
          var query := Query(api.script, params);
          var result := RunCypher(query);
          if result.None? {
            return Thrown(QueryFailed);
          }
          return Reply(StatusOk, result.value);
      }
    }
  }
}
