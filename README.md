# remember-the-lens, modelled in Dafny

remember-the-lens is a Unity dash lens that searches the tasks of a Remember
The Milk (RTM) account. This project models its core and proves properties of
that model:

- **RtmApi** (`rtmapi.dfy`) models the RTM REST client:
  - request signing, where the pre-image is the shared secret followed by
    `key+value` for each parameter sorted by key, skipping `None` values;
  - request URLs and the HTTP-status and `stat="fail"` checks of a call;
  - parameter merging for authenticated calls;
  - `token_valid`, `retrieve_token` and `authenticate_desktop`;
  - dotted method names (`RtmName`);
  - navigation of a parsed response through `RtmObject` attributes and the
    fixed path-to-child-tag collection table.
- **TaskStore** (`taskstore.dfy`) models `TasksDB`. It keeps two tables as
  sequences of rows. Each store call replaces one table. The queries are the
  inner join of the two tables with the completed and category filters and an
  optional `ORDER BY`, plus a point lookup by identifiers.
- **ListsInfo** (`listsinfo.dfy`) models `ListsInfoManager`: the list id to
  name and name to id dictionaries, built from a lists response that is
  fetched at most once. It also models the static list-names helper.
- **TasksInfo** (`tasksinfo.dfy`) models `TasksInfoManager`: the task cache,
  its 20-second staleness rule, and the selection of the tasks of one category.
- **Auth** (`auth.dfy`) models `AuthManager`, the authentication handshake: a
  pending flag and the frob of the handshake in progress.
- **Lens** (`lens.dfy`) models the string logic of the lens:
  - the result-row URI and its parser;
  - the "category [due]" subtitle and its two parsers;
  - the search-match rule;
  - the category filter table and options, and the displayed-fields filter;
  - the dispatch of an activated URI.
- **Host** (`host.dfy`) holds the results model, the web browser and the token
  file. Each records what the lens hands it.
- **Strings** (`strings.dfy`) holds the Python string operations the code
  uses: `find`, `split`, `join`, `lower`, `in`, slicing, `partition` and `str`
  of a number.
- **Wrappers** and **Responses** (`wrappers.dfy`, `responses.dfy`) hold the
  Option/Result values and the exceptions, and the parsed response records.

Python exceptions are `Failure` values of the `Error` datatype. Each modelled
operation returns the exception the source would raise, in the case where it
would raise it.

The remote service is a `Server` parameter: a total function from request
URL to HTTP status and parsed body, so every request is answered (see
"Left out" for transport errors). The managers take the responses they would
receive as parameters. Each reading of the clock is a parameter (`now`, and
`stampedAt` for the second reading in `downloadTasksList`). MD5 and
`quote_plus` are uninterpreted function fields of `Primitives`.

## Model

| member | source | states |
|---|---|---|
| Strings.Find | src/lens.py:355 | `str.find`: -1 exactly when the character is absent; otherwise the index of its first occurrence |
| Strings.Split | src/lens.py:246 | `str.split` gives at least one piece, and no piece holds the separator |
| Strings.SplitJoin | src/lens.py:289 | splitting the join of separator-free pieces gives the pieces back |
| Strings.JoinSplit | src/lens.py:289 | joining the pieces of a split gives the string back |
| Strings.SplitSingle | src/lens.py:246 | a split has one piece exactly when the separator does not occur |
| Strings.PartitionTail | src/rtmapi/__init__.py:172 | `partition(sep)[2]` is empty when the separator is absent |
| Strings.Lower | src/lens.py:236 | lower-casing keeps the length and maps each ASCII capital to its small letter |
| Strings.LowerIdempotent | src/lens.py:236 | lower-casing twice is lower-casing once |
| Strings.ContainsIff | src/lens.py:236 | `p in s` holds exactly when `p` occurs at some index of `s` |
| Strings.LessEqTotal | src/TasksDB.py:166-170 | the text order used for sorting is total |
| Strings.LessEqTrans | src/TasksDB.py:166-170 | the text order is transitive |
| Strings.LessEqAntisym | src/TasksDB.py:166-170 | the text order is antisymmetric |
| Strings.NatToString | src/lens.py:117 | `str(i)` is a non-empty string of decimal digits, one digit exactly below 10 |
| Strings.NatToStringInjective | src/lens.py:116-117 | different numbers print differently |
| Strings.Slice | src/lens.py:372 | Python slicing: within bounds it is the plain subsequence |
| Strings.SliceToLastButOne | src/lens.py:372 | `s[i:-1]` runs from `i` to the last character but one |
| Strings.SliceBackwards | src/lens.py:372 | a slice whose end lies before its start is empty |
| RtmApi.ValueOf | src/rtmapi/__init__.py:93-94 | dict lookup finds a key exactly when some parameter has it, with that parameter's value |
| RtmApi.AssignKeys | src/rtmapi/__init__.py:94 | assigning one key adds exactly that key and keeps the keys distinct |
| RtmApi.UpdateValue | src/rtmapi/__init__.py:94 | after `update`, a key of the update has the update's value; any other key keeps its value |
| RtmApi.UpdateDistinct | src/rtmapi/__init__.py:94 | `update` of a dict is a dict: no key twice |
| RtmApi.SortByKey | src/rtmapi/__init__.py:111-112 | sorting the parameters is a permutation of them |
| RtmApi.SortSorted | src/rtmapi/__init__.py:111-112 | the sorted parameters have strictly increasing keys |
| RtmApi.SortedUnique | src/rtmapi/__init__.py:111-112 | two key-sorted sequences with the same elements are equal, so sorting has one result |
| RtmApi.PreImageOfSorted | src/rtmapi/__init__.py:110-116 | for parameters already in key order, the signed string is the secret followed by each `k+v` |
| RtmApi.Sign | src/rtmapi/__init__.py:110-116 | `api_sig` is the MD5 hex digest of the shared secret followed by `key+value` of every non-`None` parameter, sorted by key |
| RtmApi.SignatureOrderIndependent | src/rtmapi/__init__.py:110-116 | the signature does not depend on the order of the parameters |
| RtmApi.SignatureIgnoresNone | src/rtmapi/__init__.py:113-115 | adding a parameter whose value is `None` leaves the signature unchanged |
| RtmApi.QueryItemsExact | src/rtmapi/__init__.py:105-107 | every parameter with a value has its `k=v` item in the query, and each item comes from such a parameter |
| RtmApi.QueryItemsAppend | src/rtmapi/__init__.py:103 | the items of appended parameters are the items of each part, in order |
| RtmApi.RequestUrl | src/rtmapi/__init__.py:108 | the URL is `request_url or base_url`, then `?`, then the query |
| RtmApi.QuerySplits | src/rtmapi/__init__.py:103-108 | when quoting never yields `&`, the query splits at `&` into the non-`None` items in order, then `api_sig` over the unsigned parameters |
| RtmApi.FindChild | src/rtmapi/__init__.py:169 | `find` gives the first child with the tag, and None exactly when no child has it |
| RtmApi.FindAll | src/rtmapi/__init__.py:178 | `findall` gives children with the tag, and every child with the tag |
| RtmApi.FindAllSingle | src/rtmapi/__init__.py:178 | `findall` on one child keeps it exactly when it has the tag |
| RtmApi.FindAllAppend | src/rtmapi/__init__.py:178 | `findall` over two runs of children is the first run's matches followed by the second's: document order and multiplicity are kept |
| RtmApi.GetAttr | src/rtmapi/__init__.py:162-169 | for a name that normal lookup does not find on `RtmObject` (not `_lists`, `_element`, `_name`, `_get_collection`, the mangled `__getitem` or a dunder): `value` gives the text; an XML attribute gives its value; any other name gives the child found, with the path extended by `/name`; access on a missed child is AttributeError |
| RtmApi.GetCollection | src/rtmapi/__init__.py:171-178 | iteration walks the children tagged as the table says for the path after the method name; ValueError for a path not in the table |
| RtmApi.PathAfterMethod | src/rtmapi/__init__.py:172 | the collection key of `method/path` is `path` when the method name holds no `/` |
| RtmApi.KnownCollection | src/rtmapi/__init__.py:135-153 | a tabled path walks the table's child tag, each child named `method/path/child` |
| RtmApi.TasksCollections | src/rtmapi/__init__.py:147-148 | iterating `rsp.tasks` walks `list` children, and iterating a list walks its `taskseries` |
| RtmApi.ListsCollection | src/rtmapi/__init__.py:145 | iterating `rsp.lists` walks the `list` children |
| RtmApi.UnknownCollectionFails | src/rtmapi/__init__.py:172-174 | a path absent from the table, or a bare method name, raises ValueError |
| RtmApi.AttributeChain | src/rtmapi/__init__.py:118-131 | `Rtm.__getattr__` wraps the first segment in an `RtmName`, and each further `RtmName.__getattr__` appends `.` and the segment; defined only for chains that normal attribute lookup does not intercept |
| RtmApi.AttributeChainJoins | src/rtmapi/__init__.py:118-131 | a chain of attribute accesses that reaches `__getattr__` at every step (no segment is a field, method or dunder of `Rtm` or `RtmName`) calls the method named by the segments joined with `.` |
| RtmApi.CallUrl | src/rtmapi/__init__.py:97-108 | the request goes to the `request_url` keyword argument when one is given and non-empty, otherwise to the REST endpoint; the query carries `method` and the other keyword arguments, with `request_url` neither signed nor sent |
| RtmApi.StatFails | src/rtmapi/__init__.py:86 | the response is a failure exactly when its root has an XML attribute `stat` equal to `fail` |
| RtmApi.CallMethod | src/rtmapi/__init__.py:80-90 | succeeds exactly on HTTP 200 with well-formed XML not marked `stat="fail"`, returning the root named after the method; RtmException for another status; ParseError for malformed XML; `stat="fail"` is RtmException, or AttributeError when `err/code` or `err/msg` is missing; TypeError when a keyword argument is named `self`, `method_name` or `method`; a `request_url` argument picks the endpoint (CallUrl) |
| RtmApi.Rtm.constructor | src/rtmapi/__init__.py:22-27 | the client keeps the key, secret, permissions and token it is given |
| RtmApi.Rtm.AuthParams | src/rtmapi/__init__.py:92-94 | an authenticated call sends `api_key` and `auth_token`, overridden by the caller's parameters of the same name |
| RtmApi.Rtm.CallMethodAuth | src/rtmapi/__init__.py:92-95 | the call goes out with the merged parameters, and its object is named after the method |
| RtmApi.Rtm.TokenValid | src/rtmapi/__init__.py:56-64 | no token is invalid without a call; a check rejected with RtmException is invalid; a successful check is valid; other exceptions propagate |
| RtmApi.Rtm.AuthenticateDesktop | src/rtmapi/__init__.py:36-41 | when `getFrob` answers with a text `frob`, returns that frob and the signed auth URL for key, permissions and frob; a non-text `frob` is AttributeError; a missing `frob` or a failed call passes its error on |
| RtmApi.Rtm.RetrieveToken | src/rtmapi/__init__.py:70-78 | RtmException clears the token and answers false; success stores the `auth/token` text and answers true; other exceptions leave the token; the token left is the one `ExchangedToken` describes |
| RtmApi.Rtm.ExchangedToken | src/rtmapi/__init__.py:70-78 | the token `retrieve_token` leaves: None when `rtm.auth.getToken` raises RtmException, the text of `auth/token` otherwise; any other exception propagates |
| TaskStore.ColumnIndex | src/TasksDB.py:64 | the index of a selected column name, and None exactly for a name that is not a column |
| TaskStore.TaskRows | src/TasksDB.py:119-128 | one row per task series of every list, in response order: list id, series id, task id, completed, name, due and priority |
| TaskStore.SeriesRows | src/TasksDB.py:120-128 | one row per task series of a list, in order, with that list's id |
| TaskStore.TaskRowsSnoc | src/TasksDB.py:119-128 | one more list stores its series' rows after the earlier ones |
| TaskStore.TaskRowsCount | src/TasksDB.py:119-128 | the tasks table has exactly one row per task series of the response |
| TaskStore.TaskRowsMembership | src/TasksDB.py:119-128 | a row is stored exactly when it is the row of some series of some list |
| TaskStore.ListRows | src/TasksDB.py:138-140 | one (id, name) row per list entry, in order |
| TaskStore.PairsWithCount | src/TasksDB.py:181-186 | the selected pairs of one task row occur as often as the list row does |
| TaskStore.Query | src/TasksDB.py:180-186 | the rows of the inner join on `listid`, with completed tasks only when `showCompleted` holds, and only the named category when one is given |
| TaskStore.QueryCount | src/TasksDB.py:181-186 | the join holds each selected pair as many times as its task row times its list row occur, and nothing else |
| TaskStore.QueryMembership | src/TasksDB.py:162-186 | a pair is returned exactly when both rows are in their tables, the list ids agree, the completed filter holds, and the category matches when one is given |
| TaskStore.InsertOn | src/TasksDB.py:166-170 | inserting a row adds exactly that row |
| TaskStore.SortOn | src/TasksDB.py:166-170 | ordering is a permutation |
| TaskStore.InsertOnSorted | src/TasksDB.py:166-170 | inserting into rows sorted on a column keeps them sorted |
| TaskStore.SortOnSorted | src/TasksDB.py:166-170 | ordering on a column gives rows non-decreasing in it |
| TaskStore.OrderedProperties | src/TasksDB.py:166-170 | with or without ORDER BY the rows are the same multiset; with it they are sorted on the column |
| TaskStore.FirstWithIds | src/TasksDB.py:209-212 | `fetchone` gives a joined row with the three identifiers, and none exactly when no row has them |
| TaskStore.RecordOf | src/TasksDB.py:189-194 | the dictionary of a row has exactly the eight column names as keys, each mapped to its column |
| TaskStore.RecordIds | src/TasksDB.py:215-217 | a record's identifier, completed and list name entries are those of its row |
| TaskStore.TasksDB.constructor | src/TasksDB.py:52-69 | both tables start empty |
| TaskStore.TasksDB.CleanDatabaseEntries | src/TasksDB.py:101-106 | deletes every row of the one table named and leaves the other |
| TaskStore.TasksDB.StoreTasks | src/TasksDB.py:108-128 | the tasks table becomes exactly the rows of the response, in order; the lists table is unchanged |
| TaskStore.TasksDB.StoreSeries | src/TasksDB.py:120-128 | the series of one list are appended in order |
| TaskStore.TasksDB.StoreLists | src/TasksDB.py:130-140 | the lists table becomes one row per entry; the tasks table is unchanged |
| TaskStore.TasksDB.GetTasks | src/TasksDB.py:147-196 | one record per selected joined row, in the query's order, ordered on the column when one is given; every call without `orderBy` or with a selected column name succeeds; any other name is an SQL error |
| TaskStore.TasksDB.GetTaskById | src/TasksDB.py:198-219 | the record of a joined row with the three identifiers, completed or not; ValueError exactly when there is none |
| ListsInfo.LastFor | src/ListsInfoManager.py:69-71 | the last pair with a key, and None exactly when no pair has it |
| ListsInfo.Put | src/ListsInfoManager.py:69-71 | the dictionary after assigning each pair in order, a later pair overwriting an earlier one with the same key |
| ListsInfo.PutLookup | src/ListsInfoManager.py:69-71 | after the updates a key is present when it was already or some pair had it; its value is that of the last such pair |
| ListsInfo.LaterWins | src/ListsInfoManager.py:69-71 | a pair no later pair overrides is in the result: on duplicates the later element wins |
| ListsInfo.PutKeepsKeys | src/ListsInfoManager.py:69-71 | a build only adds or overwrites entries and never removes one |
| ListsInfo.PutStep | src/ListsInfoManager.py:69-71 | one more pair is one more assignment |
| ListsInfo.IdNamePairs | src/ListsInfoManager.py:70 | the (id, name) of each entry, in order |
| ListsInfo.NameIdPairs | src/ListsInfoManager.py:71 | the (name, id) of each entry, in order |
| ListsInfo.Names | src/ListsInfoManager.py:124-125 | the names of the entries, in response order |
| ListsInfo.ListsInfoManager.constructor | src/ListsInfoManager.py:40-51 | empty dictionaries and no cached lists response |
| ListsInfo.ListsInfoManager.GetTheRtmListsRepresentation | src/ListsInfoManager.py:53-60 | fetches only when nothing is cached; a cached response is kept |
| ListsInfo.ListsInfoManager.BuildTheListsDictionary | src/ListsInfoManager.py:62-71 | fetches at most once, then records every entry of the cached response in both dictionaries; a failed fetch changes neither dictionary |
| ListsInfo.ListsInfoManager.RecordEntries | src/ListsInfoManager.py:69-71 | both dictionaries are updated with each entry, in order |
| ListsInfo.ListsInfoManager.GetListName | src/ListsInfoManager.py:73-81 | the name of a known id; an unknown id fails with the unbound `name` |
| ListsInfo.ListsInfoManager.GetListId | src/ListsInfoManager.py:83-91 | the id of a known name; KeyError for an unknown one |
| ListsInfo.BuiltForwardLookup | src/ListsInfoManager.py:69-70 | after a build from empty, each list's id maps to its name unless a later list has the same id |
| ListsInfo.BuiltReverseLookup | src/ListsInfoManager.py:69-71 | after a build from empty, each list's name maps to its id unless a later list has the same name |
| ListsInfo.GetTheCategoriesListStatically | src/ListsInfoManager.py:103-126 | no stored token or an invalid token gives `[]`; otherwise the list names in response order; exceptions propagate |
| TasksInfo.ListDescriptors | src/TasksInfoManager.py:84-90 | one descriptor per series, with the category given and name, due and priority copied |
| TasksInfo.Collect | src/TasksInfoManager.py:79-90 | the descriptors of the tasks of every list (or only of the requested one), in response order, each with its list name; a walked list with series whose id has no name is UnboundLocalError |
| TasksInfo.CollectFails | src/TasksInfoManager.py:79-90 | the selection fails exactly when some walked list with series has no name, and then with UnboundLocalError |
| TasksInfo.ListDescriptorsMembers | src/TasksInfoManager.py:84-90 | a descriptor is among a list's descriptors exactly when it describes one of its series |
| TasksInfo.CollectMembers | src/TasksInfoManager.py:79-90 | a successful selection holds exactly the descriptors of the series of the walked lists, each under its list's name |
| TasksInfo.CollectStep | src/TasksInfoManager.py:79-90 | walking one more list appends that list's descriptors when it is walked, and nothing otherwise |
| TasksInfo.OnlyCategory | src/TasksInfoManager.py:79-82 | with a known category, every descriptor comes from a list with that id and carries its name |
| TasksInfo.CollectFailurePersists | src/TasksInfoManager.py:86 | once the walk has failed, further lists keep that failure |
| TasksInfo.TasksInfoManager.constructor | src/TasksInfoManager.py:51-62 | no cached tasks and timestamp 0 |
| TasksInfo.TasksInfoManager.CategoryId | src/TasksInfoManager.py:73-76 | the id of a known category name, and none (every list) for an unknown one |
| TasksInfo.TasksInfoManager.DownloadTasksList | src/TasksInfoManager.py:93-105 | fetches exactly when nothing is cached or the cache has expired; then the cache is the response, the lists dictionaries are rebuilt and the timestamp is the clock reading taken after both downloads (`stampedAt`), distinct from the `now` of the expiry test; a failed download keeps the old timestamp; otherwise nothing changes |
| TasksInfo.TasksInfoManager.GetTasksOfCategory | src/TasksInfoManager.py:64-91 | the selection of the cached lists for the category, or of every list when the name is unknown; AttributeError when nothing was downloaded |
| TasksInfo.TasksInfoManager.SeriesDescriptors | src/TasksInfoManager.py:84-90 | the descriptors of one list's series under its name; UnboundLocalError when the list has series but no name |
| TasksInfo.TasksInfoManager.TasksListExpired | src/TasksInfoManager.py:107-114 | the cache is expired when more than 20 seconds have passed since its timestamp |
| TasksInfo.ExpiryBoundary | src/TasksInfoManager.py:107-114 | at exactly 20 seconds the cache is fresh; one second later it has expired |
| Host.ResultsModel.Append | src/AuthManager.py:75-81 | `model.append` adds one row at the end |
| Host.ResultsModel.Clear | src/lens.py:252-253 | `results.clear` empties the model |
| Host.Browser.Open | src/lens.py:258 | `webbrowser.open` visits one more URL |
| Host.TokenFile.Save | src/AuthManager.py:96-97 | the token file now holds exactly the token |
| Auth.Placeholder | src/AuthManager.py:70-81 | the placeholder row has URI `rtmLens://auth/wait`, the manager's icon and category, and plain-text type |
| Auth.AuthManager.constructor | src/AuthManager.py:32-42 | a new manager is not pending and has no frob |
| Auth.AuthManager.IsAuthNeeded | src/AuthManager.py:50-54 | no authentication is needed exactly when the token is valid and nothing is pending; a failing check propagates |
| Auth.AuthManager.RtmRequireAuthentication | src/AuthManager.py:56-68 | always appends one placeholder; when pending nothing else changes; otherwise one handshake starts |
| Auth.AuthManager.StartHandshake | src/AuthManager.py:63-68 | given what `authenticate_desktop` returned: the frob is kept, its URL opened once and the request marked pending; a failed handshake returns its error and leaves the request not pending, the frob and the browser untouched |
| Auth.AuthManager.CheckAndRequireAuthentication | src/AuthManager.py:44-48 | false with nothing shown when no authentication is needed; otherwise the placeholder is shown and the require step runs: a pending request or a started handshake answers true, and a failed `getFrob` is returned with the frob, the browser and the pending flag as they were; a failing check changes nothing |
| Auth.RetrieveAndRead | src/AuthManager.py:89-91 | `retrieve_token` then `rtmApi.token`: the token the exchange of the frob yields, held by the client; an exception leaves the client's token |
| Auth.AuthManager.RtmCompleteAuthentication | src/AuthManager.py:83-98 | AttributeError before any handshake; otherwise returns the token the exchange of the frob yields; on success clears the pending flag and saves the token exactly when there is one; an error changes no state |
| Lens.PairsFailurePersists | src/lens.py:289-290 | once a piece without `=` stops the parse, later pieces keep that failure |
| Lens.PairsFail | src/lens.py:289-290 | parsing fails exactly when some piece has no `=`, and then with IndexError |
| Lens.PairsToDict | src/lens.py:289-291 | the dictionary of the `key=value` pieces of the URI, a later key overwriting an earlier one; a piece without `=` is IndexError |
| Lens.GetTaskIdsFromUri | src/lens.py:274-291 | the `key=value` pairs of the URI's last `/` segment, split at `&`, as a dictionary, later keys winning |
| Lens.PiecesToDict | src/lens.py:287-291 | the loop sets each piece's key to its value, in order |
| Lens.KeyValueSplit | src/lens.py:289 | a `key=value` piece splits back into key and value |
| Lens.ThreePairs | src/lens.py:287-291 | three pieces make the dictionary of their three pairs |
| Lens.SplitFour | src/lens.py:246 | a string made of four separator-free pieces splits into them |
| Lens.IdsPartPieces | src/lens.py:237 | the identifier part of a result URI splits at `&` into its three pieces |
| Lens.TaskUri | src/lens.py:237 | the URI of a result: `rtmLens://select/` followed by `lid=`, `tsid=` and `tid=` of the task, joined with `&` |
| Lens.TaskUriLastSegment | src/lens.py:237 | the last `/` segment of a result URI is its identifier part, after the `select` segment |
| Lens.TaskUriRoundTrip | src/lens.py:274-291 | parsing the URI of a row gives back its three identifiers when none holds `/`, `&` or `=` |
| Lens.CategoryFromCatDue | src/lens.py:349-360 | the whole string without `[`, otherwise the prefix before the first `[` |
| Lens.DueDateFromCatDue | src/lens.py:362-373 | "No due date" when there is no `[` |
| Lens.DueDateBetween | src/lens.py:362-373 | with a `[` and a later first `]`, the due is the text strictly between the first `[` and the first `]` |
| Lens.DueDateEdgeCases | src/lens.py:372 | with no `]` the due runs to the last character but one; a `]` before the `[` gives "" |
| Lens.CategoryOfSubtitle | src/lens.py:349-360 | the category part of a subtitle is the category, followed by a space when there is a due |
| Lens.Subtitle | src/lens.py:231-232 | the category name, followed by ` [due]` when the due date is not empty |
| Lens.DueOfSubtitle | src/lens.py:362-373 | the due part of a subtitle built from a non-empty due is that due, and "No due date" when the due is empty |
| Lens.BracketedFinds | src/lens.py:368-372 | in `a[d]` with no bracket in `a` and no `]` in `d`, both brackets are found where they were put |
| Lens.MatchesIff | src/lens.py:236 | a task matches when the search is shorter than 3 or its lower-cased text occurs in the lower-cased name |
| Lens.MatchesIgnoresCase | src/lens.py:236 | matching does not depend on the case of either side |
| Lens.Matches | src/lens.py:236 | a task is shown when the search is shorter than 3 characters or occurs, lower-cased, in its lower-cased name |
| Lens.UpdateModel | src/lens.py:230-243 | appends the task's row, with URI, priority icon and subtitle, exactly when it matches the search; otherwise the model is unchanged |
| Lens.ResultRowRoundTrip | src/lens.py:230-243 | a shown row's URI parses back to its identifiers and selects the `select` action; its subtitle gives back the due |
| Lens.BuildCategoryTable | src/lens.py:115-117 | the table maps `str(i)` to the i-th name, and has no other key |
| Lens.CategoryTableHas | src/lens.py:116-117 | the i-th name is under `str(i)`: no later name overwrites it |
| Lens.CategoryTableKeys | src/lens.py:116-117 | every key of the table is `str(i)` for an index of the names |
| Lens.CategoryTable | src/lens.py:116-117 | the category table maps the decimal string of each index to the category name at that index |
| Lens.CategoryFilterOptions | src/lens.py:119-124 | an empty table gives the single option `0` "Lens restart needed"; otherwise one option per key with its name, and every entry of the table is an option |
| Lens.FilteredCategory | src/lens.py:194-201 | the name behind the active option, or `All` when there is none or it is unknown |
| Lens.OptionalDisplayFields | src/lens.py:203-207 | the ids of exactly the active field options, in filter order (ActiveIds) |
| Lens.Shown | src/lens.py:221-223 | a field is shown when its option is active, and blank otherwise |
| Lens.UriActionOf | src/lens.py:246 | the action is the second-to-last `/` segment; IndexError exactly when the URI has no `/` |
| Lens.PlaceholderCompletes | src/lens.py:246-249 | activating the placeholder row completes the authentication |
| Lens.TasksLens.constructor | src/lens.py:148-167 | the auth manager has the lens icon and the tasks category; the client asks for `write` with the stored token |
| Lens.TasksLens.HandleUri | src/lens.py:245-258 | `auth` completes the authentication: the lens keeps the token the exchange yields and clears the results; the frob and the browser are kept; an error changes neither the lens token, the results, the client token, the pending flag nor the token file; `select` opens the RTM site; anything else does nothing; a URI without `/` is IndexError |
| Lens.TasksLens.CompleteAuthentication | src/lens.py:250-253 | the token becomes the one the exchange yields and the results are cleared; an error from the exchange, or no handshake, changes neither the lens token, the results, the client token, the pending flag nor the token file |

## Left out

- The network, crypto and XML layers are parameters. HTTP transport and its
  headers, MD5, `quote_plus`, UTF-8 encoding and ElementTree parsing are the
  `Server` function and the `Primitives` fields. A malformed body is a parse
  error.
- RtmApi.CallMethod: an exception raised by `http.request` itself (the
  connection refused, a DNS failure, a timeout, an `httplib2` error) is not
  modelled, because `Server` answers every request with a status and a body.
  No modelled operation returns such an exception, and the callers of
  `_call_method` are not modelled on that path.
- Wall-clock time is a parameter per reading (`now`, `stampedAt`). The
  truncation of `int(time())` is not modelled.
- The token file I/O of `TokenManager` is reduced to the `TokenFile` contents.
- The Unity/Dee/DBus glue under `singlet`, localisation, the preview
  (`on_preview_uri`, `_parseModelValue`, `_getTaskPreviewDescription`) and
  `complete_task` are left out. They are host calls or live API calls.
- `_handleSearch` as a whole is left out, because it calls `orderTasksList`
  and reads descriptor fields (`prettyDue`, `listId`, ...) that the task
  manager does not define. Its parts are modelled: the auth check, the
  download, the category filter, the fields filter, the blanking of fields
  and `_updateModel`.
- `handle_uri`'s re-run of an empty search after authentication and its
  `update_dash_response` are left out. They drive the dash, and the search
  itself is not modelled.
- `getTaskByName`, `authenticate_webapp`, `dumpTasks` and `close` are not
  used by the modelled paths.
- `RtmObject.__len__`, `__getitem`, `__nonzero__` and `__repr__` are left
  out. Length and indexing are broken in the source, and the other two only
  print.
- The SQL engine is stated by its meaning over sequences. The unescaped
  splice of the category name into the query is not modelled, so a name with
  a quote behaves as a plain comparison here.
- TaskStore.TasksDB.GetTasks: the model fixes one row order. Without ORDER
  BY it is task rows outermost, then list rows. With ORDER BY it is a stable
  insertion sort. SQLite promises only the join's rows, and sortedness on the
  column. OrderedProperties states exactly that promise.
- TaskStore.TasksDB.GetTasks: `orderBy` is spliced into the SQL text, so
  SQLite also sorts on terms the model rejects, such as `tasks.name`,
  `lists.listname`, `name DESC` or a column position. The model accepts
  exactly the eight selected column names and reports every other term as
  an SQL error.
- TaskStore.TasksDB.GetTasks: `showCompleted` is a boolean, so the model
  does not capture "any value but `True` hides completed tasks".
- The managers take already-parsed responses (`Responses`). The
  collection lemmas in RtmApi connect those records to `RtmObject`
  iteration. A `taskseries` is read through its first `task` child only.
- Python dict iteration order is not modelled. The order of the category
  table's keys is the `keyOrder` parameter of CategoryFilterOptions. The
  order of a request's query string is fixed by the model: `method` first,
  then the keyword arguments in the order given (CallUrl), where CPython 2
  uses hash order.
- Lens.MatchesIff: Python 2's `len(search)` counts the bytes of a UTF-8
  `str`, while the model counts characters. A search of one or two
  non-ASCII characters that is 3 or more bytes long filters the results in
  the source but shows every task in the model. Mixing `str` and `unicode` in
  `search.lower() in taskName.lower()` is not modelled either.
- Lens.UpdateModel: the same byte-versus-character difference in the
  shortness test of the search applies to the results it appends.
- RtmApi.GetAttr: a name that normal attribute lookup finds on an
  `RtmObject` (`_lists`, `_element`, `_name`, `_get_collection`,
  `_RtmObject__getitem` or a dunder such as `__len__`) does not reach
  `__getattr__`. GetAttr and GetPath require that no name is one of these
  (ReachesGetAttr) and do not model what those lookups return.
- RtmApi.AttributeChainJoins: a segment that normal attribute lookup finds
  (a field, method or dunder of `Rtm` or `RtmName`, such as `token` or
  `name`) does not reach `__getattr__`, so it does not extend the method
  name. The model requires that no segment is such an attribute (Forwarded)
  and does not model what those lookups return.
- Strings.Lower: only ASCII letters are lower-cased, as Python 2's
  `str.lower` does on byte strings. Unicode case mapping is not modelled.
- Localised texts ("No due date", "Lens restart needed", the placeholder's
  title and comment) are their English originals.
- `getListName`'s print on an unknown id is left out. Only its failure is
  modelled.
