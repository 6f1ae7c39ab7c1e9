/** Request attributes: `key=value` columns, the first binding of a key wins. */
module Attributes {
  import Percent
  import Text

  type Store = map<string, string>

  /** `unordered_map::emplace`: an existing key keeps its value. */
  function Emplace(m: Store, key: string, value: string): Store {
    if key in m then m else m[key := value]
  }

  function InsertColumn(m: Store, column: string): Store {
    var kv := Text.Split(column, '=');
    if |kv| == 2 then Emplace(m, kv[0], Percent.Unescaped(kv[1])) else m
  }

  function Parsed(columns: seq<string>): Store {
    if columns == [] then map[]
    else InsertColumn(Parsed(columns[..|columns| - 1]), columns[|columns| - 1])
  }

  class Attributes {
    var entries: Store

    constructor (str: string, sep: char)
      ensures entries == Parsed(Text.Split(str, sep))
    {
      entries := map[];
      new;
      var columns := Text.SplitColumns(str, sep);
      for i := 0 to |columns|
        invariant entries == Parsed(columns[..i])
      {
        var kv := Text.SplitColumns(columns[i], '=');
        if |kv| == 2 {
          Insert(kv[0], kv[1]);
        }
        assert columns[..i + 1][..i] == columns[..i];
      }
      assert columns[..|columns|] == columns;
    }

    constructor Empty()
      ensures entries == map[]
    {
      entries := map[];
    }

    method Insert(key: string, value: string)
      modifies this
      ensures entries == Emplace(old(entries), key, Percent.Unescaped(value))
    {
      var decoded := Percent.Unescape(value);
      if key !in entries {
        entries := entries[key := decoded];
      }
    }

    /** `operator[]`, with the empty attribute for a key that is not bound. */
    function Get(key: string): (value: string)
      reads this
      ensures key !in entries ==> value == ""
    {
      if key in entries then entries[key] else ""
    }
  }

  // ----------------------------------------------------------- what they promise

  /** `column` has the form `key=value` with one equals sign. */
  ghost predicate Binds(column: string, key: string, value: string) {
    column == key + ['='] + value && '=' !in key && '=' !in value
  }

  lemma BindingColumn(column: string, key: string, value: string)
    requires Binds(column, key, value)
    ensures Text.Split(column, '=') == [key, value]
  {
    hide Text.Split;
    Text.SplitConcat(key, '=', value);
    Text.SplitWhole(key, '=');
    Text.SplitWhole(value, '=');
  }

  lemma ParsedSnoc(columns: seq<string>, column: string)
    ensures Parsed(columns + [column]) == InsertColumn(Parsed(columns), column)
  {
    hide InsertColumn;
    assert (columns + [column])[..|columns|] == columns;
  }

  lemma BindingInserted(m: Store, column: string, key: string, value: string)
    requires Binds(column, key, value)
    ensures InsertColumn(m, column) == Emplace(m, key, Percent.Unescaped(value))
  {
    hide Text.Split, Percent.Unescaped;
    BindingColumn(column, key, value);
  }

  lemma TwoColumnsBind(column: string)
    requires |Text.Split(column, '=')| == 2
    ensures var kv := Text.Split(column, '='); Binds(column, kv[0], kv[1])
  {
    hide Text.Split;
    Text.JoinSplit(column, '=');
    Text.SplitColumnsAreFree(column, '=');
  }

  /** A key's value comes from the first column that binds it; columns of any other form bind nothing. */
  lemma {:induction false} FirstBindingWins(columns: seq<string>, i: nat, key: string, value: string)
    requires i < |columns| && Binds(columns[i], key, value)
    requires forall j, v :: 0 <= j < i ==> !Binds(columns[j], key, v)
    ensures key in Parsed(columns) && Parsed(columns)[key] == Percent.Unescaped(value)
  {
    hide Text.Split, Percent.Unescaped;
    var n := |columns| - 1;
    if i < n {
      FirstBindingWins(columns[..n], i, key, value);
    } else {
      BindingColumn(columns[n], key, value);
      UnboundKeyIsAbsent(columns[..n], key);
    }
  }

  lemma {:induction false} UnboundKeyIsAbsent(columns: seq<string>, key: string)
    requires forall j, v :: 0 <= j < |columns| ==> !Binds(columns[j], key, v)
    ensures key !in Parsed(columns)
  {
    hide Text.Split, Percent.Unescaped;
    if columns == [] {
    } else {
      var n := |columns| - 1;
      UnboundKeyIsAbsent(columns[..n], key);
      if |Text.Split(columns[n], '=')| == 2 {
        TwoColumnsBind(columns[n]);
      }
    }
  }

  /** Parsing a longer list of columns lets the earlier ones win. */
  lemma {:induction false} ParsedConcat(a: seq<string>, b: seq<string>)
    ensures Parsed(a + b) == Parsed(b) + Parsed(a)
    decreases |b|
  {
    hide Text.Split, Percent.Unescaped;
    if b == [] {
      assert a + b == a;
    } else {
      var n := |b| - 1;
      ParsedConcat(a, b[..n]);
      assert (a + b)[..|a + b| - 1] == a + b[..n];
    }
  }

  /** Looking a key up after parsing: the decoded value of its first binding, or the empty attribute. */
  lemma FoundIsFirstBinding(attributes: Attributes, columns: seq<string>, key: string)
    requires attributes.entries == Parsed(columns)
    ensures forall i, value ::
              (0 <= i < |columns| && Binds(columns[i], key, value)
               && forall j, v :: 0 <= j < i ==> !Binds(columns[j], key, v)) ==>
                attributes.Get(key) == Percent.Unescaped(value)
    ensures (forall i, value :: 0 <= i < |columns| ==> !Binds(columns[i], key, value)) ==> attributes.Get(key) == ""
  {
    hide Binds, Percent.Unescaped, Parsed;
    forall i, value | 0 <= i < |columns| && Binds(columns[i], key, value)
                      && (forall j, v :: 0 <= j < i ==> !Binds(columns[j], key, v))
      ensures attributes.Get(key) == Percent.Unescaped(value)
    {
      FirstBindingWins(columns, i, key, value);
    }
    if forall i, value :: 0 <= i < |columns| ==> !Binds(columns[i], key, value) {
      UnboundKeyIsAbsent(columns, key);
    }
  }
}
