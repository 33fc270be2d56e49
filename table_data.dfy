/**
 * The table projector `get_table_data`: it turns a quiz (a mapping from
 * item keys to items holding `mcq`, `options` and `correct`) into one
 * display row per item, and answers `False` instead of raising on any
 * input it cannot walk.
 *
 * `json.loads` is the parameter `parse`: the decoded value, or `None` when
 * the text is not JSON.
 */
module TableData {
  import opened Wrappers
  import opened Json
  import PyStr

  /**
   * One display row. The question and the correct answer are copied from
   * the item as they are, so they need not be strings.
   */
  datatype Row = Row(question: Value, options: string, correctAnswer: Value)

  /** The list of rows, or the value `False`. */
  datatype TableResult = Failed | Rows(rows: seq<Row>)

  const Separator := " || "

  /** One option as displayed: `label: text`. */
  function Segment(option: (string, Value)): string
  {
    option.0 + ": " + Str(option.1)
  }

  function Segments(options: seq<(string, Value)>): (r: seq<string>)
    ensures |r| == |options|
    ensures forall i :: 0 <= i < |options| ==> r[i] == Segment(options[i])
  {
    if |options| == 0 then [] else Segments(options[..|options| - 1]) + [Segment(options[|options| - 1])]
  }

  /** The `label: text` segments of the options, in their order, with `" || "` between neighbours. */
  function JoinOptions(options: seq<(string, Value)>): string
  {
    PyStr.Join(Separator, Segments(options))
  }

  /**
   * The row for one item, or `None` when reading it raises: the item is not
   * a dict, or its `options` is present but is not a dict.
   */
  function ProjectItem(item: Value): Option<Row>
  {
    if !item.JObj? then None
    else
      var question := Get(item.fields, "mcq", JStr(""));
      var options := Get(item.fields, "options", JObj([]));
      var correct := Get(item.fields, "correct", JStr(""));
      if !options.JObj? then None
      else Some(Row(question, JoinOptions(options.fields), correct))
  }

  /**
   * An item gives a row exactly when it is a dict whose `options`, if
   * present, is a dict. The question and the answer are the item's `mcq` and
   * `correct` unchanged, `""` when missing; missing options give an empty
   * column.
   */
  lemma ProjectItemFields(item: Value)
    ensures ProjectItem(item).Some? <==> item.JObj? && (Lookup(item.fields, "options").None? || Lookup(item.fields, "options").value.JObj?)
    ensures ProjectItem(item).Some? ==> ProjectItem(item).value.question == (if Lookup(item.fields, "mcq").Some? then Lookup(item.fields, "mcq").value else JStr(""))
    ensures ProjectItem(item).Some? ==> ProjectItem(item).value.correctAnswer == (if Lookup(item.fields, "correct").Some? then Lookup(item.fields, "correct").value else JStr(""))
    ensures ProjectItem(item).Some? ==> ProjectItem(item).value.options == (if Lookup(item.fields, "options").Some? then JoinOptions(Lookup(item.fields, "options").value.fields) else "")
  {
  }

  /** The rows for the entries of the quiz, or `None` as soon as one item fails. */
  function ProjectEntries(entries: seq<(string, Value)>): Option<seq<Row>>
  {
    if |entries| == 0 then Some([])
    else
      match ProjectEntries(entries[..|entries| - 1])
      case None => None
      case Some(rows) =>
        match ProjectItem(entries[|entries| - 1].1)
        case None => None
        case Some(row) => Some(rows + [row])
  }

  /** What `get_table_data` returns: a string is parsed first; anything but a dict fails. */
  function Table(quiz: Value, parse: string -> Option<Value>): TableResult
  {
    var data := if quiz.JStr? then parse(quiz.s) else Some(quiz);
    if data.None? || !data.value.JObj? then Failed
    else
      match ProjectEntries(data.value.fields)
      case None => Failed
      case Some(rows) => Rows(rows)
  }

  /** `get_table_data` as written: the rows are appended one by one in a loop over the quiz's items. */
  method GetTableData(quiz: Value, parse: string -> Option<Value>) returns (r: TableResult)
    ensures r == Table(quiz, parse)
  {
    var data := quiz;
    if quiz.JStr? {
      var parsed := parse(quiz.s);
      if parsed.None? {
        return Failed;
      }
      data := parsed.value;
    }
    if !data.JObj? {
      return Failed;
    }
    var entries := data.fields;
    var table := [];
    for i := 0 to |entries|
      invariant ProjectEntries(entries[..i]) == Some(table)
    {
      assert entries[..i + 1][..i] == entries[..i];
      var value := entries[i].1;
      if !value.JObj? {
        ProjectEntriesFails(entries, i);
        return Failed;
      }
      var question := Get(value.fields, "mcq", JStr(""));
      var optionsDict := Get(value.fields, "options", JObj([]));
      var correct := Get(value.fields, "correct", JStr(""));
      if !optionsDict.JObj? {
        ProjectEntriesFails(entries, i);
        return Failed;
      }
      var row := Row(question, JoinOptions(optionsDict.fields), correct);
      assert ProjectItem(value) == Some(row);
      table := table + [row];
    }
    assert entries[..|entries|] == entries;
    r := Rows(table);
  }

  /** Once one item fails, the whole projection fails, whatever follows. */
  lemma {:induction false} ProjectEntriesFails(entries: seq<(string, Value)>, k: nat)
    requires k < |entries| && ProjectItem(entries[k].1).None?
    ensures ProjectEntries(entries).None?
    decreases |entries|
  {
    if k < |entries| - 1 {
      var init := entries[..|entries| - 1];
      assert init[k] == entries[k];
      ProjectEntriesFails(init, k);
    }
  }

  /** The projection succeeds exactly when every item can be read. */
  lemma {:induction false} ProjectEntriesSome(entries: seq<(string, Value)>)
    ensures ProjectEntries(entries).Some? <==> forall i :: 0 <= i < |entries| ==> ProjectItem(entries[i].1).Some?
    decreases |entries|
  {
    if |entries| > 0 {
      var init := entries[..|entries| - 1];
      ProjectEntriesSome(init);
      assert forall i :: 0 <= i < |init| ==> init[i] == entries[i];
    }
  }

  /** A successful projection has one row per entry, in the quiz's order, each the row of its item. */
  lemma {:induction false} ProjectEntriesRows(entries: seq<(string, Value)>)
    requires ProjectEntries(entries).Some?
    ensures |ProjectEntries(entries).value| == |entries|
    ensures forall i :: 0 <= i < |entries| ==> ProjectItem(entries[i].1) == Some(ProjectEntries(entries).value[i])
    decreases |entries|
  {
    if |entries| > 0 {
      var init, last := entries[..|entries| - 1], entries[|entries| - 1];
      ProjectEntriesRows(init);
      var rows := ProjectEntries(init).value;
      var all := rows + [ProjectItem(last.1).value];
      assert ProjectEntries(entries).value == all;
      forall i | 0 <= i < |entries|
        ensures ProjectItem(entries[i].1) == Some(all[i])
      {
        if i < |init| {
          assert init[i] == entries[i];
        }
      }
    }
  }

  /**
   * For a quiz dict with N entries the result is N rows in the dict's order,
   * or `False` exactly when some entry is not a dict or holds `options`
   * that is not a dict.
   */
  lemma TableOfDict(fields: seq<(string, Value)>, parse: string -> Option<Value>)
    ensures Table(JObj(fields), parse).Failed? <==> exists i :: 0 <= i < |fields| && ProjectItem(fields[i].1).None?
    ensures Table(JObj(fields), parse).Rows? ==>
      var rows := Table(JObj(fields), parse).rows;
      |rows| == |fields| && forall i :: 0 <= i < |fields| ==> ProjectItem(fields[i].1) == Some(rows[i])
  {
    ProjectEntriesSome(fields);
    if ProjectEntries(fields).Some? {
      ProjectEntriesRows(fields);
    }
  }

  /** An empty quiz gives an empty list of rows, not `False`. */
  lemma TableOfEmptyDict(parse: string -> Option<Value>)
    ensures Table(JObj([]), parse) == Rows([])
  {
  }

  /**
   * A string is decoded first: text that is not JSON, or JSON that is not an
   * object, gives `False`; a decoded object is projected as if passed directly.
   */
  lemma TableOfString(s: string, parse: string -> Option<Value>)
    ensures parse(s).None? ==> Table(JStr(s), parse) == Failed
    ensures parse(s).Some? && !parse(s).value.JObj? ==> Table(JStr(s), parse) == Failed
    ensures parse(s).Some? && parse(s).value.JObj? ==> Table(JStr(s), parse) == Table(parse(s).value, parse)
  {
  }

  /** Any other value that is not a dict (a list, a number, a boolean, null) gives `False`. */
  lemma TableOfNonDict(quiz: Value, parse: string -> Option<Value>)
    requires !quiz.JStr? && !quiz.JObj?
    ensures Table(quiz, parse) == Failed
  {
  }

  /**
   * The options column: the `label: text` segments in the options' order,
   * with `" || "` between neighbours; no options give the empty string.
   */
  lemma JoinOptionsShape(options: seq<(string, Value)>)
    ensures options == [] ==> JoinOptions(options) == ""
    ensures |options| == 1 ==> JoinOptions(options) == options[0].0 + ": " + Str(options[0].1)
    ensures |options| > 1 ==>
      JoinOptions(options) == Segment(options[0]) + Separator + JoinOptions(options[1..])
  {
    if |options| > 1 {
      var segs := Segments(options);
      PyStr.JoinConcat(Separator, [segs[0]], segs[1..]);
      assert [segs[0]] + segs[1..] == segs;
      assert Segments(options[1..]) == segs[1..];
    }
  }

  /** The options column's length: every segment plus one separator between neighbours. */
  lemma JoinOptionsLength(options: seq<(string, Value)>)
    requires options != []
    ensures |JoinOptions(options)| == PyStr.TotalLength(Segments(options)) + 4 * (|options| - 1)
  {
    PyStr.JoinLength(Separator, Segments(options));
  }

  /** Example options: `{"A": "x", "B": "y"}` are shown as `A: x || B: y`. */
  lemma ExampleOptions()
    ensures JoinOptions([("A", JStr("x")), ("B", JStr("y"))]) == "A: x || B: y"
  {
    var opts := [("A", JStr("x")), ("B", JStr("y"))];
    JoinOptionsShape(opts);
    assert opts[1..] == [("B", JStr("y"))];
    JoinOptionsShape(opts[1..]);
  }

  /** An example item: `{"mcq": "Q1", "options": {"A": "x", "B": "y"}, "correct": "A"}`. */
  lemma ExampleRow()
    ensures ProjectItem(JObj([("mcq", JStr("Q1")), ("options", JObj([("A", JStr("x")), ("B", JStr("y"))])), ("correct", JStr("A"))]))
      == Some(Row(JStr("Q1"), "A: x || B: y", JStr("A")))
  {
    var fields := [("mcq", JStr("Q1")), ("options", JObj([("A", JStr("x")), ("B", JStr("y"))])), ("correct", JStr("A"))];
    assert Lookup(fields, "mcq") == Some(JStr("Q1"));
    assert Lookup(fields, "options") == Some(JObj([("A", JStr("x")), ("B", JStr("y"))]));
    assert Lookup(fields, "correct") == Some(JStr("A"));
    ExampleOptions();
  }
}
