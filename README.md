# GitGraphServer dispatcher, modelled in Dafny

GitGraphServer is a servlet. It exposes Cypher queries, declared in an XML
configuration file, as named REST endpoints over a Neo4j graph database. This
project models the configuration-driven core of that servlet, with its proofs:

- **Registry loading** (`parseXmlConfigFile`, `loadConfiguration`), in module
  `Registry` (`registry.dfy`) and `Dispatch.Dispatcher.Load`.
  - Each `api` element becomes one `KZRestfulApi` record, in document order.
    The model calls this record `Api`.
  - `name`, `output` and `script` take the trimmed text of their first
    element. They stay null (`None`) when that element is missing.
  - The input map holds the trimmed text of each `input` under its `key`
    attribute. The last occurrence of a key wins.
  - A reload that fails keeps the registry held before.
- **Resolution** (`doGet`): a linear scan in which the last entry with the
  requested name wins. It is modelled by `Dispatch.Resolve` against the
  specification `Dispatch.Find`.
- **Parameter merge**: the defaults are copied, then the caller's parameters
  are written over them (`Dispatch.MergeParams`).
- **Result formatting** (`runCypher`): the string form of each record is
  appended to `""` with no separator (`Dispatch.JoinRecords`, `Dispatch.Concat`).
  `Dispatch.Dispatcher.RunCypher` hands the query to the database and joins
  what it returns.
- **Request handling** (`doGet` as a whole):
  - The function `Dispatch.Route` gives everything up to the database call.
  - The function `Dispatch.Respond` gives the whole outcome.
  - `Dispatch.Dispatcher.Handle` is proved against `Respond`.
  - A ghost log, `Submitted`, records every query handed to the database.
    It is appended only in `Dispatcher.RunCypher`, where the database is
    called. The proofs use it to show when no query runs.

Modelling choices:

- The XML document is taken as already parsed. Each `api` element is an
  `ApiNode` with these parts:
  - the text contents of its `name`, `output` and `script` elements;
  - its `input` elements, each a pair of its `key` attribute and its text.
- `String.trim` is Java's: it removes characters at or below U+0020 from both
  ends (`Registry.Trim`).
- A Java reference that may be null is an `Option`.
- The Neo4j session is a parameter, `Executor`. It maps a query to the string
  forms of the returned records, or to `None` when the driver throws.
- An exception that leaves `doGet` is the outcome `Thrown(fault)`. The
  servlet container decides which response such an exception produces.

Two behaviours a reader might expect do not hold in the code, and the model
follows the code:

- A reader might expect a missing `name` to be read as the empty string. The
  code leaves it null instead. `doGet` calls
  `name.equals` on every entry it scans, so ONE unnamed entry makes every
  request that reaches the scan throw a NullPointerException. The model
  returns `Thrown(UnnamedApi)` (`Dispatch.UnnamedEntryThrows`), whatever name
  was requested.
- A reader might expect a failed query to be answered with 500. `doGet`
  does not catch the driver's exception, which leaves `doGet`
  (`Thrown(QueryFailed)`).

## Model

| member | source | states |
|---|---|---|
| Registry.ParseConfig | src/edu/monash/gitgraph/gitgraphserver/GitGraphServer.java:103-131 | one record per `api` element, in document order; each record's name, output and script are the trimmed text of the first such element or unset when there is none, and its inputs are the input map of its `input` elements |
| Registry.InputsMapKeys | src/edu/monash/gitgraph/gitgraphserver/GitGraphServer.java:122-127 | the keys of a record's input map are exactly the `key` attributes of its `input` elements |
| Registry.InputsMapLastWins | src/edu/monash/gitgraph/gitgraphserver/GitGraphServer.java:122-127 | a repeated key holds the trimmed text of its last `input` element |
| Registry.TrimStartSuffix | src/edu/monash/gitgraph/gitgraphserver/GitGraphServer.java:112 | stripping the front leaves a suffix; everything cut is at or below U+0020 and the result does not start with such a character |
| Registry.TrimEndPrefix | src/edu/monash/gitgraph/gitgraphserver/GitGraphServer.java:112 | stripping the back leaves a prefix; everything cut is at or below U+0020 and the result does not end with such a character |
| Registry.TrimSlice | src/edu/monash/gitgraph/gitgraphserver/GitGraphServer.java:110-120 | a trimmed field is the slice of the element text between two runs of characters at or below U+0020, and starts and ends with neither |
| Registry.TrimIdempotent | src/edu/monash/gitgraph/gitgraphserver/GitGraphServer.java:110-126 | a trimmed field or input value is unchanged by trimming it again |
| Dispatch.LastNamedNone | src/edu/monash/gitgraph/gitgraphserver/GitGraphServer.java:61-66 | the scan finds nothing exactly when no entry has the requested name |
| Dispatch.LastNamedAt | src/edu/monash/gitgraph/gitgraphserver/GitGraphServer.java:61-65 | when entry i is the last in registry order to have the name, the scan finds entry i, so earlier same-named entries are passed over |
| Dispatch.FindSpec | src/edu/monash/gitgraph/gitgraphserver/GitGraphServer.java:61-70 | resolution throws exactly when some entry is unnamed; otherwise it is not found exactly when no entry has the name, and yields the last entry having the name when one does |
| Dispatch.Resolve | src/edu/monash/gitgraph/gitgraphserver/GitGraphServer.java:61-65 | the scan of doGet, in which a later match replaces an earlier one and an unnamed entry throws, yields the resolution Find specifies |
| Dispatch.MergeParams | src/edu/monash/gitgraph/gitgraphserver/GitGraphServer.java:72-77 | the merged keys are the default keys together with the caller's; every caller key has the caller's value; every other default key keeps its default; the result is the map union with the caller taking precedence |
| Dispatch.ConcatAppend | src/edu/monash/gitgraph/gitgraphserver/GitGraphServer.java:159-167 | joining two runs of records gives the two joined bodies one after the other |
| Dispatch.ConcatAt | src/edu/monash/gitgraph/gitgraphserver/GitGraphServer.java:164-165 | every record appears in the body, unseparated, after all records before it and before all records after it |
| Dispatch.JoinRecords | src/edu/monash/gitgraph/gitgraphserver/GitGraphServer.java:160-167 | the body is the in-order join of the record strings with no separator, "" for no records |
| Dispatch.Dispatcher.RunCypher | src/edu/monash/gitgraph/gitgraphserver/GitGraphServer.java:159-167 | the query is logged as handed to the database; the result fails exactly when the database fails and is otherwise the in-order join of the record strings |
| Dispatch.NoRegistryIs500 | src/edu/monash/gitgraph/gitgraphserver/GitGraphServer.java:54-59 | with no registry loaded, a request with a non-empty path info gets 500 with an empty body and no query is run |
| Dispatch.UnknownNameIs404 | src/edu/monash/gitgraph/gitgraphserver/GitGraphServer.java:66-70 | in a registry whose entries all have a name, a request with a non-empty path info whose name no entry has gets 404 with an empty body and no query is run |
| Dispatch.UnnamedEntryThrows | src/edu/monash/gitgraph/gitgraphserver/GitGraphServer.java:62-63 | one unnamed entry in a loaded registry makes every request with a path throw, whatever name it asks for |
| Dispatch.LastMatchRuns | src/edu/monash/gitgraph/gitgraphserver/GitGraphServer.java:61-81 | in a registry whose entries all have a name, a request with a non-empty path info runs the script of the last entry having the requested name, with that entry's defaults overridden by the caller's parameters, and on success answers 200 with the records joined in order |
| Dispatch.ErrorStatusRunsNothing | src/edu/monash/gitgraph/gitgraphserver/GitGraphServer.java:54-81 | a request answered with a status other than 200 never reaches the database |
| Dispatch.GetUserScenario | src/edu/monash/gitgraph/gitgraphserver/GitGraphServer.java:51-81 | a `getUser` entry with default id "0" runs with id "42" when the caller gives it and with "0" when not; `/unknownApi` gets 404 |
| Dispatch.Dispatcher.constructor | src/edu/monash/gitgraph/gitgraphserver/GitGraphServer.java:43-47 | init loads the configuration (no registry when the load fails) and keeps the database connection |
| Dispatch.Dispatcher.Load | src/edu/monash/gitgraph/gitgraphserver/GitGraphServer.java:137-146 | a failed load leaves the registry as it was; a successful one replaces it as a whole with the records built from the document |
| Dispatch.Dispatcher.Handle | src/edu/monash/gitgraph/gitgraphserver/GitGraphServer.java:50-82 | doGet's outcome is Respond's; the one query handed to the database is the routed one, and a non-200 status hands none |

## Left out

- Servlet and HTTP plumbing is not modelled: requests, responses, writers, the `@WebServlet` mapping and `destroy`/`disconnectDatabase`. The path info (`None` for null) and the caller's parameters are inputs. Whether a request has a path info depends on how the servlet is mapped.
- The caller's parameters are a map from name to value. `getParameter` gives the first value of a parameter sent several times, and the model does not represent the other values.
- XML parsing (`DocumentBuilder`, `normalize`, `getElementsByTagName`) is not modelled, because it is a foreign library. The document is given as a sequence of `ApiNode`s. `getElementsByTagName` finds elements at any depth, so the model's lists stand for that flattened, document-ordered result.
- The Neo4j driver is the `Executor` parameter: `GraphDatabase.driver`, `session.run`, `Record.toString` and closing the session are not modelled. The database is an external system.
- `volatile` and the concurrent reference swap are not modelled, because they concern concurrency. A reload is one field assignment.
- Console logging, `printStackTrace`, the hard-coded file path and the credentials are left out. They have no behaviour to verify.
- Parameter values are strings, not `Object`: both the defaults and the caller's values are strings in the source.
- The `output` field is loaded (`Registry.ParseConfig`), but nothing in the source reads it.
- How the container turns an uncaught exception into a response is not modelled. The model stops at `Thrown(fault)`.
