/**
  The string handling of the tasks lens: the URI of a result row and its
  parser, the "category [due]" subtitle and its two parsers, the search-match
  rule, the category filter table, the displayed-fields filter and the
  dispatch of an activated URI.
*/
module Lens {
  import opened Wrappers
  import opened Strings
  import opened RtmApi
  import opened Host
  import opened Auth

  const RtmPage := "http://www.rememberthemilk.com"
  const Icon := "/usr/share/unity/lenses/tasks-lens/tow"
  const IconExtension := ".png"
  /** The name of the lens's only result category. */
  const TasksCategory := "tasks"
  /** Searches shorter than this match every task. */
  const MinSearchLength := 3

  const CategoryFieldFilterId := "category"
  const DueFieldFilterId := "due"
  const PriorityFieldFilterId := "priority"

  // ---------------------------------------------------------------------------
  // Result URIs (src/lens.py:237, 274-291)
  // ---------------------------------------------------------------------------

  /** The identifier part of a result URI. */
  function IdsPart(listId: string, taskseriesId: string, taskId: string): string
  {
    "lid=" + listId + "&tsid=" + taskseriesId + "&tid=" + taskId
  }

  /** The URI of the result row of a task. */
  function TaskUri(listId: string, taskseriesId: string, taskId: string): string
  {
    "rtmLens://select" + "/" + IdsPart(listId, taskseriesId, taskId)
  }

  /** The dictionary filled from `key=value` pieces, later keys winning; IndexError at a piece without `=`. */
  function PairsToDict(pieces: seq<string>): Result<map<string, string>, Error>
  {
    if |pieces| == 0 then Success(map[])
    else
      var prev := PairsToDict(pieces[..|pieces| - 1]);
      var ids := Split(pieces[|pieces| - 1], '=');
      if prev.Failure? then prev
      else if |ids| < 2 then Failure(IndexError)
      else Success(prev.value[ids[0] := ids[1]])
  }

  /** The pieces of the last `/` segment of a URI, split at `&`. */
  function UriPieces(uri: string): seq<string>
  {
    var parts := Split(uri, '/');
    Split(parts[|parts| - 1], '&')
  }

  /** What `_getTaskIdsFromUri` computes. */
  function TaskIdsOf(uri: string): Result<map<string, string>, Error>
  {
    PairsToDict(UriPieces(uri))
  }

  lemma {:induction false} PairsFailurePersists(pieces: seq<string>, n: nat)
    requires n <= |pieces| && PairsToDict(pieces[..n]).Failure?
    ensures PairsToDict(pieces) == PairsToDict(pieces[..n])
    decreases |pieces| - n
  {
    if n < |pieces| {
      assert pieces[..n + 1][..n] == pieces[..n];
      PairsFailurePersists(pieces, n + 1);
    } else {
      assert pieces[..n] == pieces;
    }
  }

  /** Parsing fails exactly when some piece has no `=`, and then with IndexError. */
  lemma {:induction false} PairsFail(pieces: seq<string>)
    ensures PairsToDict(pieces).Failure? <==> exists i :: 0 <= i < |pieces| && '=' !in pieces[i]
    ensures PairsToDict(pieces).Failure? ==> PairsToDict(pieces).error == IndexError
  {
    if |pieces| > 0 {
      var front := pieces[..|pieces| - 1];
      var last := pieces[|pieces| - 1];
      var prev := PairsToDict(front);
      PairsFail(front);
      SplitSingle(last, '=');
      if prev.Failure? {
        var i :| 0 <= i < |front| && '=' !in front[i];
        assert pieces[i] == front[i];
      } else if '=' !in last {
        assert PairsToDict(pieces) == Failure(IndexError);
      } else {
        assert PairsToDict(pieces).Success?;
        forall i | 0 <= i < |pieces|
          ensures '=' in pieces[i]
        {
          if i < |front| {
            assert front[i] == pieces[i];
          }
        }
      }
    }
  }

  /** `_getTaskIdsFromUri`: the `key=value` pairs of the URI's last segment, as a dictionary. */
  method GetTaskIdsFromUri(uri: string) returns (r: Result<map<string, string>, Error>)
    ensures r == TaskIdsOf(uri)
  {
    var parts := Split(uri, '/');
    r := PiecesToDict(Split(parts[|parts| - 1], '&'));
  }

  /** The loop of `_getTaskIdsFromUri`: each piece split at `=`, its key set to its value. */
  method PiecesToDict(pieces: seq<string>) returns (r: Result<map<string, string>, Error>)
    ensures r == PairsToDict(pieces)
  {
    var d: map<string, string> := map[];
    var i := 0;
    while i < |pieces|
      invariant 0 <= i <= |pieces|
      invariant PairsToDict(pieces[..i]) == Success(d)
    {
      assert pieces[..i + 1][..i] == pieces[..i] && pieces[..i + 1][i] == pieces[i];
      var ids := Split(pieces[i], '=');
      if |ids| < 2 {
        assert PairsToDict(pieces[..i + 1]) == Failure(IndexError);
        PairsFailurePersists(pieces, i + 1);
        return Failure(IndexError);
      }
      assert PairsToDict(pieces[..i + 1]) == Success(d[ids[0] := ids[1]]);
      d := d[ids[0] := ids[1]];
      i := i + 1;
    }
    assert pieces[..i] == pieces;
    r := Success(d);
  }

  /** A `key=value` piece splits back into its key and value. */
  lemma KeyValueSplit(k: string, v: string)
    requires '=' !in k && '=' !in v
    ensures Split(k + ['='] + v, '=') == [k, v]
  {
    assert Join([k, v], '=') == k + ['='] + v by {
      assert [k, v][1..] == [v];
    }
    SplitJoin([k, v], '=');
  }

  /** Three `key=value` pieces make the dictionary of their three pairs. */
  lemma ThreePairs(k1: string, v1: string, k2: string, v2: string, k3: string, v3: string)
    requires '=' !in k1 && '=' !in v1 && '=' !in k2 && '=' !in v2 && '=' !in k3 && '=' !in v3
    ensures PairsToDict([k1 + ['='] + v1, k2 + ['='] + v2, k3 + ['='] + v3]) == Success(map[k1 := v1, k2 := v2, k3 := v3])
  {
    var pieces := [k1 + ['='] + v1, k2 + ['='] + v2, k3 + ['='] + v3];
    KeyValueSplit(k1, v1);
    KeyValueSplit(k2, v2);
    KeyValueSplit(k3, v3);
    assert pieces[..2] == [k1 + ['='] + v1, k2 + ['='] + v2];
    assert pieces[..2][..1] == [k1 + ['='] + v1];
    assert pieces[..2][..1][..0] == [];
    assert PairsToDict(pieces[..2][..1]) == Success(map[k1 := v1]);
    assert PairsToDict(pieces[..2]) == Success(map[k1 := v1, k2 := v2]);
  }

  /** Joining three pieces puts a separator between each two. */
  lemma JoinThree(a: string, b: string, c: string, sep: char)
    ensures Join([a, b, c], sep) == a + [sep] + b + [sep] + c
  {
    assert [a, b, c][1..] == [b, c];
    assert [b, c][1..] == [c];
    assert Join([b, c], sep) == b + [sep] + c;
    assert Join([a, b, c], sep) == a + [sep] + (b + [sep] + c);
  }

  /** Joining four pieces puts a separator between each two. */
  lemma JoinFour(a: string, b: string, c: string, d: string, sep: char)
    ensures Join([a, b, c, d], sep) == a + [sep] + b + [sep] + c + [sep] + d
  {
    assert [a, b, c, d][1..] == [b, c, d];
    JoinThree(b, c, d, sep);
    assert Join([a, b, c, d], sep) == a + [sep] + (b + [sep] + c + [sep] + d);
  }

  /** A string made of four separator-free pieces splits into them. */
  lemma SplitFour(a: string, b: string, c: string, d: string, sep: char)
    requires sep !in a && sep !in b && sep !in c && sep !in d
    ensures Split(a + [sep] + b + [sep] + c + [sep] + d, sep) == [a, b, c, d]
  {
    JoinFour(a, b, c, d, sep);
    SplitJoin([a, b, c, d], sep);
  }

  /** The facts about the lens's URI literals that the proofs below use. */
  lemma UriLiterals()
    ensures "rtmLens://select" == "rtmLens:" + ['/'] + "" + ['/'] + "select"
    ensures PlaceholderUri == "rtmLens:" + ['/'] + "" + ['/'] + "auth" + ['/'] + "wait"
    ensures "lid=" == "lid" + ['='] && "&tsid=" == ['&'] + "tsid" + ['='] && "&tid=" == ['&'] + "tid" + ['=']
    ensures '/' !in "rtmLens:" && '/' !in "select" && '/' !in "auth" && '/' !in "wait"
    ensures '/' !in "lid=" && '/' !in "&tsid=" && '/' !in "&tid="
    ensures '=' !in "lid" && '=' !in "tsid" && '=' !in "tid"
  {
  }

  /** The identifier part holds no `/` when the identifiers hold none. */
  lemma IdsPartNoSlash(listId: string, taskseriesId: string, taskId: string)
    requires '/' !in listId && '/' !in taskseriesId && '/' !in taskId
    ensures '/' !in IdsPart(listId, taskseriesId, taskId)
  {
    UriLiterals();
  }

  /** The identifier part splits at `&` into its three pieces. */
  lemma IdsPartPieces(listId: string, taskseriesId: string, taskId: string)
    requires '&' !in listId && '&' !in taskseriesId && '&' !in taskId
    ensures Split(IdsPart(listId, taskseriesId, taskId), '&') == ["lid" + ['='] + listId, "tsid" + ['='] + taskseriesId, "tid" + ['='] + taskId]
  {
    UriLiterals();
    var a, b, c := "lid" + ['='] + listId, "tsid" + ['='] + taskseriesId, "tid" + ['='] + taskId;
    assert IdsPart(listId, taskseriesId, taskId) == a + ['&'] + b + ['&'] + c;
    JoinThree(a, b, c, '&');
    SplitJoin([a, b, c], '&');
  }

  /** The last `/` segment of a task URI is its identifier part, after the `select` segment. */
  lemma TaskUriLastSegment(listId: string, taskseriesId: string, taskId: string)
    requires '/' !in listId && '/' !in taskseriesId && '/' !in taskId
    ensures var parts := Split(TaskUri(listId, taskseriesId, taskId), '/');
            && |parts| >= 2
            && parts[|parts| - 1] == IdsPart(listId, taskseriesId, taskId)
            && parts[|parts| - 2] == "select"
  {
    UriLiterals();
    var ids := IdsPart(listId, taskseriesId, taskId);
    IdsPartNoSlash(listId, taskseriesId, taskId);
    assert TaskUri(listId, taskseriesId, taskId) == "rtmLens:" + ['/'] + "" + ['/'] + "select" + ['/'] + ids;
    SplitFour("rtmLens:", "", "select", ids, '/');
  }

  /**
    Parsing the URI of a task's result row gives back its three identifiers,
    when none of them contains `/`, `&` or `=`.
  */
  lemma TaskUriRoundTrip(listId: string, taskseriesId: string, taskId: string)
    requires '/' !in listId && '/' !in taskseriesId && '/' !in taskId
    requires '&' !in listId && '&' !in taskseriesId && '&' !in taskId
    requires '=' !in listId && '=' !in taskseriesId && '=' !in taskId
    ensures TaskIdsOf(TaskUri(listId, taskseriesId, taskId)) ==
            Success(map["lid" := listId, "tsid" := taskseriesId, "tid" := taskId])
  {
    UriLiterals();
    TaskUriLastSegment(listId, taskseriesId, taskId);
    IdsPartPieces(listId, taskseriesId, taskId);
    ThreePairs("lid", listId, "tsid", taskseriesId, "tid", taskId);
  }

  // ---------------------------------------------------------------------------
  // The subtitle "category [due]" (src/lens.py:231-232, 241, 349-373)
  // ---------------------------------------------------------------------------

  /** The subtitle of a result row: the category, then ` [due]` when there is a due date. */
  function Subtitle(categoryName: string, due: string): string
  {
    if |due| > 0 then categoryName + " [" + due + "]" else categoryName
  }

  /** `_getCategoryFromCatDue`: everything before the first `[`, or the whole string. */
  function CategoryFromCatDue(catdue: string): (r: string)
    ensures r <= catdue && '[' !in r
    ensures '[' !in catdue ==> r == catdue
    ensures '[' in catdue ==> catdue[|r|] == '['
  {
    var startCat := Find(catdue, '[');
    if startCat == -1 then catdue else catdue[..startCat]
  }

  /**
    `_getDueDateFromCatDue`: "No due date" without a `[`; otherwise the text
    from after the first `[` to the first `]` (to the last character but one
    when there is no `]`).
  */
  function DueDateFromCatDue(catdue: string): (r: string)
    ensures '[' !in catdue ==> r == "No due date"
  {
    var startDueDate := Find(catdue, '[');
    if startDueDate == -1 then "No due date"
    else Slice(catdue, startDueDate + 1, Find(catdue, ']'))
  }

  /**
    The category part of a subtitle is the category, followed by the space that
    precedes ` [` when there is a due date.
  */
  lemma CategoryOfSubtitle(categoryName: string, due: string)
    requires '[' !in categoryName
    ensures CategoryFromCatDue(Subtitle(categoryName, due)) == if |due| > 0 then categoryName + " " else categoryName
  {
    if |due| > 0 {
      var s := Subtitle(categoryName, due);
      assert s == (categoryName + " ") + ['['] + (due + "]");
      assert '[' !in categoryName + " ";
      FindAfter(categoryName + " ", '[', due + "]");
      assert s[..|categoryName| + 1] == categoryName + " ";
    }
  }

  /** The due part of a subtitle is the due date, when neither part holds a bracket that would end it early. */
  lemma DueOfSubtitle(categoryName: string, due: string)
    requires '[' !in categoryName && ']' !in categoryName && ']' !in due
    ensures DueDateFromCatDue(Subtitle(categoryName, due)) == if |due| > 0 then due else "No due date"
  {
    if |due| > 0 {
      var a := categoryName + " ";
      assert Subtitle(categoryName, due) == a + ['['] + due + [']'];
      BracketedFinds(a, due);
    }
  }

  /**
    The edge cases of the due parser: with no `]` the due text runs to the last
    character but one (the end index -1 of the slice); a `]` before the first
    `[` gives the empty string.
  */
  lemma DueDateEdgeCases(catdue: string)
    requires '[' in catdue
    ensures var k := Find(catdue, '[');
            ']' !in catdue ==>
              DueDateFromCatDue(catdue) == if k + 1 < |catdue| - 1 then catdue[k + 1..|catdue| - 1] else ""
    ensures ']' in catdue && Find(catdue, ']') < Find(catdue, '[') ==> DueDateFromCatDue(catdue) == ""
  {
    var k, m := Find(catdue, '['), Find(catdue, ']');
    assert DueDateFromCatDue(catdue) == Slice(catdue, k + 1, m);
    if m == -1 {
      SliceToLastButOne(catdue, k + 1);
    } else if m < k {
      SliceBackwards(catdue, k + 1, m);
    }
  }

  /**
    The general case of the due parser: with a `[` and a later first `]`, the
    due date is the text strictly between the first `[` and the first `]`,
    whatever surrounds them.
  */
  lemma DueDateBetween(catdue: string)
    requires '[' in catdue && ']' in catdue && Find(catdue, '[') < Find(catdue, ']')
    ensures Find(catdue, '[') >= 0 && Find(catdue, ']') < |catdue|
    ensures DueDateFromCatDue(catdue) == catdue[Find(catdue, '[') + 1..Find(catdue, ']')]
  {
  }

  /** In `a[d]`, with no bracket in `a` and no `]` in `d`, the brackets are found where they were put. */
  lemma BracketedFinds(a: string, d: string)
    requires '[' !in a && ']' !in a && ']' !in d
    ensures var s := a + ['['] + d + [']'];
            Find(s, '[') == |a| && Find(s, ']') == |a| + 1 + |d| && s[|a| + 1..|a| + 1 + |d|] == d
  {
    var s := a + ['['] + d + [']'];
    assert s == a + ['['] + (d + [']']);
    FindAfter(a, '[', d + [']']);
    assert ']' !in a + ['['] + d;
    assert s == (a + ['['] + d) + [']'] + [];
    FindAfter(a + ['['] + d, ']', []);
  }

  // ---------------------------------------------------------------------------
  // Matching a search and filling the results model (src/lens.py:147, 230-243)
  // ---------------------------------------------------------------------------

  /** The search-match rule: short searches match everything, longer ones are case-insensitive substrings. */
  predicate Matches(search: string, taskName: string)
  {
    |search| < MinSearchLength || Contains(Lower(taskName), Lower(search))
  }

  /** A task matches a long search exactly when the lower-cased search occurs somewhere in the lower-cased name. */
  lemma MatchesIff(search: string, taskName: string)
    ensures Matches(search, taskName) <==>
            |search| < MinSearchLength || exists i :: OccursAt(Lower(taskName), Lower(search), i)
  {
    LowerContainsIff(taskName, search);
  }

  lemma LowerContainsIff(s: string, p: string)
    ensures Contains(Lower(s), Lower(p)) <==> exists i :: OccursAt(Lower(s), Lower(p), i)
  {
    ContainsIff(Lower(s), Lower(p));
  }

  /** Matching ignores case on both sides. */
  lemma MatchesIgnoresCase(search: string, taskName: string)
    ensures Matches(search, taskName) == Matches(Lower(search), Lower(taskName))
  {
    LowerIdempotent(search);
    LowerIdempotent(taskName);
  }

  /** The row shown for a task. */
  function ResultRow(categoryName: string, taskName: string, due: string, priority: string,
                     listId: string, taskseriesId: string, taskId: string): Row
  {
    Row(TaskUri(listId, taskseriesId, taskId), Icon + priority + IconExtension, TasksCategory,
        "text/plain", Subtitle(categoryName, due), taskName, "")
  }

  /** `_updateModel`: appends the task's row exactly when it matches the search. */
  method UpdateModel(categoryName: string, taskName: string, due: string, priority: string, search: string,
                     model: ResultsModel, listId: string, taskseriesId: string, taskId: string)
    modifies model
    ensures model.rows == old(model.rows) +
              if Matches(search, taskName)
              then [ResultRow(categoryName, taskName, due, priority, listId, taskseriesId, taskId)]
              else []
  {
    var subtitleDue := due;
    if |due| > 0 {
      subtitleDue := " " + "[" + due + "]";
    }
    var icon := Icon + priority + IconExtension;
    if |search| < MinSearchLength || Contains(Lower(taskName), Lower(search)) {
      assert categoryName + subtitleDue == Subtitle(categoryName, due);
      model.Append(Row(TaskUri(listId, taskseriesId, taskId), icon, TasksCategory, "text/plain",
                       categoryName + subtitleDue, taskName, ""));
    }
  }

  /**
    A shown row leads back to its task: its URI parses to the identifiers and
    activates the `select` action, and its subtitle gives back the due date.
  */
  lemma ResultRowRoundTrip(categoryName: string, taskName: string, due: string, priority: string,
                           listId: string, taskseriesId: string, taskId: string)
    requires '/' !in listId && '/' !in taskseriesId && '/' !in taskId
    requires '&' !in listId && '&' !in taskseriesId && '&' !in taskId
    requires '=' !in listId && '=' !in taskseriesId && '=' !in taskId
    requires '[' !in categoryName && ']' !in categoryName && ']' !in due
    ensures var row := ResultRow(categoryName, taskName, due, priority, listId, taskseriesId, taskId);
            && TaskIdsOf(row.uri) == Success(map["lid" := listId, "tsid" := taskseriesId, "tid" := taskId])
            && UriActionOf(row.uri) == Success(OpenSite)
            && DueDateFromCatDue(row.title) == (if |due| > 0 then due else "No due date")
  {
    TaskUriRoundTrip(listId, taskseriesId, taskId);
    TaskUriLastSegment(listId, taskseriesId, taskId);
    DueOfSubtitle(categoryName, due);
  }

  // ---------------------------------------------------------------------------
  // Filters (src/lens.py:107-124, 194-207, 221-223)
  // ---------------------------------------------------------------------------

  /** The category table: `str(i)` to the i-th list name. */
  method BuildCategoryTable(catNames: seq<string>) returns (table: map<string, string>)
    ensures forall i :: 0 <= i < |catNames| ==> NatToString(i) in table && table[NatToString(i)] == catNames[i]
    ensures forall k :: k in table ==> exists i :: 0 <= i < |catNames| && k == NatToString(i)
  {
    table := map[];
    var i := 0;
    while i < |catNames|
      invariant 0 <= i <= |catNames|
      invariant table == CategoryTable(catNames[..i])
    {
      assert catNames[..i + 1][..i] == catNames[..i];
      table := table[NatToString(i) := catNames[i]];
      i := i + 1;
    }
    assert catNames[..i] == catNames;
    forall j | 0 <= j < |catNames|
      ensures NatToString(j) in table && table[NatToString(j)] == catNames[j]
    {
      CategoryTableHas(catNames, j);
    }
    forall k | k in table
      ensures exists j :: 0 <= j < |catNames| && k == NatToString(j)
    {
      CategoryTableKeys(catNames, k);
    }
  }

  /** The table after recording the names one by one under `str(0)`, `str(1)`, ... */
  ghost function CategoryTable(catNames: seq<string>): map<string, string>
  {
    if |catNames| == 0 then map[]
    else CategoryTable(catNames[..|catNames| - 1])[NatToString(|catNames| - 1) := catNames[|catNames| - 1]]
  }

  /** The i-th name is under `str(i)`: no later name overwrites it. */
  lemma {:induction false} CategoryTableHas(catNames: seq<string>, i: nat)
    requires i < |catNames|
    ensures NatToString(i) in CategoryTable(catNames) && CategoryTable(catNames)[NatToString(i)] == catNames[i]
  {
    var n := |catNames| - 1;
    if i < n {
      CategoryTableHas(catNames[..n], i);
      if NatToString(i) == NatToString(n) {
        NatToStringInjective(i, n);
        assert false;
      }
    }
  }

  /** Every key of the table is `str(i)` for some name's index. */
  lemma {:induction false} CategoryTableKeys(catNames: seq<string>, k: string)
    requires k in CategoryTable(catNames)
    ensures exists i :: 0 <= i < |catNames| && k == NatToString(i)
  {
    var n := |catNames| - 1;
    if k != NatToString(n) {
      CategoryTableKeys(catNames[..n], k);
      var i :| 0 <= i < n && k == NatToString(i);
      assert 0 <= i < |catNames|;
    } else {
      assert 0 <= n < |catNames|;
    }
  }

  /**
    The options of the category filter, in the order the table's keys are
    listed (`keyOrder`, each key once); a single "Lens restart needed" option
    under id `0` when the table is empty.
  */
  method CategoryFilterOptions(table: map<string, string>, keyOrder: seq<string>) returns (options: seq<(string, string)>)
    requires |keyOrder| == |table| && forall k :: k in table <==> k in keyOrder
    ensures |table| == 0 ==> options == [("0", "Lens restart needed")]
    ensures |table| > 0 ==>
              && |options| == |table|
              && forall i :: 0 <= i < |keyOrder| ==> options[i] == (keyOrder[i], table[keyOrder[i]])
    ensures |table| > 0 ==> forall k, v :: (k, v) in options <==> k in table && table[k] == v
  {
    if |table| == 0 {
      return [("0", "Lens restart needed")];
    }
    options := [];
    var i := 0;
    while i < |keyOrder|
      invariant 0 <= i <= |keyOrder|
      invariant |options| == i
      invariant forall j :: 0 <= j < i ==> options[j] == (keyOrder[j], table[keyOrder[j]])
    {
      options := options + [(keyOrder[i], table[keyOrder[i]])];
      i := i + 1;
    }
    forall k, v | k in table && table[k] == v
      ensures (k, v) in options
    {
      var j :| 0 <= j < |keyOrder| && keyOrder[j] == k;
      assert options[j] == (k, v);
    }
  }

  /** The category searched: the name behind the active option, or `All` when there is none or it is unknown. */
  function FilteredCategory(activeOptionId: Option<string>, table: map<string, string>): (r: string)
    ensures activeOptionId.Some? && activeOptionId.value in table ==> r == table[activeOptionId.value]
    ensures activeOptionId.None? || activeOptionId.value !in table ==> r == "All"
  {
    match activeOptionId
    case None => "All"
    case Some(id) => if id in table then table[id] else "All"
  }

  /** An option of the displayed-fields filter. */
  datatype FieldOption = FieldOption(id: string, active: bool)

  /** The ids of the active options, in filter order. */
  function ActiveIds(options: seq<FieldOption>): seq<string>
  {
    if |options| == 0 then []
    else
      var last := options[|options| - 1];
      ActiveIds(options[..|options| - 1]) + (if last.active then [last.id] else [])
  }

  /** The ids of the active options, in filter order. */
  method OptionalDisplayFields(options: seq<FieldOption>) returns (ids: seq<string>)
    ensures ids == ActiveIds(options)
    ensures |ids| <= |options|
    ensures forall x :: x in ids <==> exists o :: o in options && o.active && o.id == x
  {
    ids := [];
    var i := 0;
    while i < |options|
      invariant 0 <= i <= |options|
      invariant ids == ActiveIds(options[..i])
      invariant |ids| <= i
      invariant forall x :: x in ids <==> exists o :: o in options[..i] && o.active && o.id == x
    {
      assert options[..i + 1] == options[..i] + [options[i]];
      assert options[..i + 1][..i] == options[..i];
      if options[i].active {
        ids := ids + [options[i].id];
      }
      i := i + 1;
    }
    assert options[..i] == options;
  }

  /** A field's value is shown only when its filter option is active; otherwise it is blank. */
  function Shown(value: string, fieldId: string, displayed: seq<string>): (r: string)
    ensures fieldId in displayed ==> r == value
    ensures fieldId !in displayed ==> r == ""
  {
    if fieldId in displayed then value else ""
  }

  // ---------------------------------------------------------------------------
  // Activated URIs (src/lens.py:245-258)
  // ---------------------------------------------------------------------------

  datatype UriAction = CompleteAuth | OpenSite | NoAction

  /** The action named by the second-to-last `/` segment; IndexError when the URI has no `/`. */
  function UriActionOf(uri: string): (r: Result<UriAction, Error>)
    ensures r.Failure? <==> '/' !in uri
    ensures r.Failure? ==> r.error == IndexError
  {
    SplitSingle(uri, '/');
    var parts := Split(uri, '/');
    if |parts| < 2 then Failure(IndexError)
    else
      var action := parts[|parts| - 2];
      if action == "auth" then Success(CompleteAuth)
      else if action == "select" then Success(OpenSite)
      else Success(NoAction)
  }

  /** Activating the placeholder row completes the authentication. */
  lemma PlaceholderCompletes()
    ensures UriActionOf(PlaceholderUri) == Success(CompleteAuth)
  {
    UriLiterals();
    SplitFour("rtmLens:", "", "auth", "wait", '/');
  }

  /** The lens: its managers, its client of the service and the token it holds. */
  class TasksLens {
    const authManager: AuthManager
    const rtm: Rtm
    const tokenFile: TokenFile
    const results: ResultsModel
    const browser: Browser
    var token: Option<string>

    /** The client starts with the token read from the token file, asking for `write` permission. */
    constructor (apiKey: string, sharedSecret: string, prims: Primitives,
                 tokenFile: TokenFile, results: ResultsModel, browser: Browser)
      ensures this.tokenFile == tokenFile && this.results == results && this.browser == browser
      ensures token == tokenFile.stored
      ensures fresh(rtm) && rtm.token == tokenFile.stored && rtm.perms == "write"
      ensures rtm.apiKey == apiKey && rtm.sharedSecret == sharedSecret && rtm.prims == prims
      ensures fresh(authManager) && !authManager.pending && authManager.handshake == NoFrob
      ensures authManager.icon == Icon + IconExtension && authManager.taskModelItem == TasksCategory
    {
      this.tokenFile := tokenFile;
      this.results := results;
      this.browser := browser;
      authManager := new AuthManager(Icon + IconExtension, TasksCategory);
      token := tokenFile.stored;
      rtm := new Rtm(apiKey, sharedSecret, "write", tokenFile.stored, prims);
    }

    /**
      `handle_uri`: the `auth` action completes the authentication, keeps the
      token and clears the results; the `select` action opens the service's
      site; anything else does nothing.
    */
    method HandleUri(uri: string, server: Server) returns (r: Result<(), Error>)
      modifies this, authManager, rtm, tokenFile, results, browser
      ensures UriActionOf(uri).Failure? ==>
                r == Failure(IndexError) && unchanged(this, authManager, rtm, tokenFile, results, browser)
      ensures UriActionOf(uri) == Success(NoAction) ==>
                r.Success? && unchanged(this, authManager, rtm, tokenFile, results, browser)
      ensures UriActionOf(uri) == Success(OpenSite) ==>
                && r.Success? && browser.visited == old(browser.visited) + [RtmPage]
                && unchanged(this, authManager, rtm, tokenFile, results)
      ensures UriActionOf(uri) == Success(CompleteAuth) ==>
                authManager.handshake == old(authManager.handshake) && unchanged(browser)
      ensures UriActionOf(uri) == Success(CompleteAuth) && r.Success? ==>
                && token == rtm.token && !authManager.pending && results.rows == []
                && tokenFile.stored == (if rtm.token.Some? then rtm.token else old(tokenFile.stored))
      ensures UriActionOf(uri) == Success(CompleteAuth) && r.Failure? ==>
                && token == old(token) && results.rows == old(results.rows)
                && authManager.pending == old(authManager.pending) && rtm.token == old(rtm.token)
                && tokenFile.stored == old(tokenFile.stored)
      ensures UriActionOf(uri) == Success(CompleteAuth) && old(authManager.handshake).NoFrob? ==>
                r == Failure(AttributeError) && token == old(token) && results.rows == old(results.rows)
      ensures UriActionOf(uri) == Success(CompleteAuth) && old(authManager.handshake).Frob? ==>
                var obtained := rtm.ExchangedToken(old(authManager.handshake).frob, server);
                && (obtained.Success? ==> r.Success? && token == obtained.value)
                && (obtained.Failure? ==>
                      r == Failure(obtained.error) && token == old(token) && results.rows == old(results.rows))
    {
      var action := UriActionOf(uri);
      match action
      case Failure(e) =>
        return Failure(e);
      case Success(a) =>
        match a
        case CompleteAuth =>
          r := CompleteAuthentication(server);
        case OpenSite =>
          browser.Open(RtmPage);
          r := Success(());
        case NoAction =>
          r := Success(());
    }

    /**
      The `auth` action: completes the handshake, keeps the token it gives
      and clears the results; an error from completing changes neither.
    */
    method CompleteAuthentication(server: Server) returns (r: Result<(), Error>)
      modifies this`token, authManager`pending, rtm`token, tokenFile, results
      ensures r.Success? ==>
                && token == rtm.token && !authManager.pending && results.rows == []
                && tokenFile.stored == (if rtm.token.Some? then rtm.token else old(tokenFile.stored))
      ensures r.Failure? ==>
                && token == old(token) && results.rows == old(results.rows)
                && authManager.pending == old(authManager.pending) && rtm.token == old(rtm.token)
                && tokenFile.stored == old(tokenFile.stored)
      ensures old(authManager.handshake).NoFrob? ==> r == Failure(AttributeError)
      ensures old(authManager.handshake).Frob? ==>
                var obtained := rtm.ExchangedToken(old(authManager.handshake).frob, server);
                && (obtained.Success? ==> r.Success? && token == obtained.value)
                && (obtained.Failure? ==> r == Failure(obtained.error))
    {
      var completed := authManager.RtmCompleteAuthentication(rtm, tokenFile, server);
      if completed.Failure? {
        return Failure(completed.error);
      }
      token := completed.value;
      results.Clear();
      r := Success(());
    }
  }
}
