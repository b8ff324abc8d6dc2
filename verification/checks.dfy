/**
 * The zod checks the request schemas are built from, on an already parsed
 * JSON value: `z.string()`, `z.string().max(n)`, `z.boolean()`, `z.uuid()`,
 * `z.uuid({ abort: true }).refine(found)` and `z.array(...)` of the latter.
 * Each check yields the issues it raises, each issue filed at the path of
 * the value it is about.
 */
module Checks {
  import opened Wrappers
  import opened Json
  import opened ValidatorHandler
  import Strings

  /** An issue of the given code; its message is taken to be the code itself. */
  function IssueAt(code: string, path: seq<Segment>): Issue {
    Issue(code, path, Single(code))
  }

  /** The value under `key` of an object, absent when the key is missing. */
  function Field(v: Value, key: string): Option<Value>
    requires v.Obj?
  {
    if key in v.fields then Some(v.fields[key]) else None
  }

  predicate IsStr(v: Option<Value>) {
    v.Some? && v.value.Str?
  }

  predicate IsBool(v: Option<Value>) {
    v.Some? && v.value.Bool?
  }

  /** A string of at most `n` characters. */
  predicate StrWithin(v: Option<Value>, n: nat) {
    IsStr(v) && |v.value.s| <= n
  }

  /** A string in the UUID format. */
  predicate IsUuidStr(v: Option<Value>) {
    IsStr(v) && Strings.IsUuid(v.value.s)
  }

  /** Every issue of `r` is filed at `path`. */
  predicate AllAt(r: seq<Issue>, path: seq<Segment>) {
    forall i :: 0 <= i < |r| ==> r[i].path == path
  }

  /** `z.string()`. */
  function CheckString(v: Option<Value>, path: seq<Segment>): (r: seq<Issue>)
    ensures r == [] <==> IsStr(v)
    ensures |r| <= 1 && AllAt(r, path)
  {
    if IsStr(v) then [] else [IssueAt("invalid_type", path)]
  }

  /** `z.string().max(n)`: a non-string is a type issue, a longer string a size issue. */
  function CheckStringMax(v: Option<Value>, n: nat, path: seq<Segment>): (r: seq<Issue>)
    ensures r == [] <==> StrWithin(v, n)
    ensures |r| <= 1 && AllAt(r, path)
    ensures IsStr(v) && r != [] ==> r[0].code == "too_big"
  {
    if !IsStr(v) then [IssueAt("invalid_type", path)]
    else if |v.value.s| > n then [IssueAt("too_big", path)]
    else []
  }

  /** `z.boolean()`. */
  function CheckBoolean(v: Option<Value>, path: seq<Segment>): (r: seq<Issue>)
    ensures r == [] <==> IsBool(v)
    ensures |r| <= 1 && AllAt(r, path)
  {
    if IsBool(v) then [] else [IssueAt("invalid_type", path)]
  }

  /** `z.uuid()`: a non-string is a type issue, a malformed string a format issue. */
  function CheckUuid(v: Option<Value>, path: seq<Segment>): (r: seq<Issue>)
    ensures r == [] <==> IsUuidStr(v)
    ensures |r| <= 1 && AllAt(r, path)
  {
    if !IsStr(v) then [IssueAt("invalid_type", path)]
    else if !Strings.IsUuid(v.value.s) then [IssueAt("invalid_format", path)]
    else []
  }

  /**
   * `z.uuid({ abort: true }).refine(found)`: the format check aborts, so the
   * existence probe is consulted only for a well-formed UUID.
   */
  function CheckUuidExists(v: Option<Value>, path: seq<Segment>, found: string -> bool): (r: seq<Issue>)
    ensures r == [] <==> IsUuidStr(v) && found(v.value.s)
    ensures |r| <= 1 && AllAt(r, path)
    ensures !IsUuidStr(v) ==> r == CheckUuid(v, path)
  {
    var u := CheckUuid(v, path);
    if u != [] then u
    else if found(v.value.s) then []
    else [IssueAt("custom", path)]
  }

  /** The element at index `j` passes the element check. */
  predicate ItemOk(items: seq<Value>, j: nat, found: string -> bool)
    requires j < |items|
  {
    IsUuidStr(Some(items[j])) && found(items[j].s)
  }

  /** An issue filed at the single array index `j`. */
  predicate AtIndex(issue: Issue, j: nat) {
    issue.path == [Index(j)]
  }

  /** Some issue of `r` is filed at index `j`. */
  predicate HasIssueAt(r: seq<Issue>, j: nat) {
    exists k :: 0 <= k < |r| && AtIndex(r[k], j)
  }

  /**
   * The element checks of `z.array(z.uuid({ abort: true }).refine(found))`
   * from index `from` on, in index order, each filed at its index.
   */
  function CheckUuidItems(items: seq<Value>, found: string -> bool, from: nat): (r: seq<Issue>)
    requires from <= |items|
    decreases |items| - from
    ensures r == [] <==> forall j :: from <= j < |items| ==> ItemOk(items, j, found)
  {
    if from == |items| then []
    else
      var head := CheckUuidExists(Some(items[from]), [Index(from)], found);
      var rest := CheckUuidItems(items, found, from + 1);
      assert head == [] <==> ItemOk(items, from, found);
      assert |head + rest| == |head| + |rest|;
      AllFromSplit(items, found, from);
      head + rest
  }

  /** All elements from `from` on pass iff the one at `from` does and all after it do. */
  lemma AllFromSplit(items: seq<Value>, found: string -> bool, from: nat)
    requires from < |items|
    ensures (forall j :: from <= j < |items| ==> ItemOk(items, j, found))
      <==> ItemOk(items, from, found) && forall j :: from + 1 <= j < |items| ==> ItemOk(items, j, found)
  {
  }

  /** Every element issue sits at the index of an element that fails. */
  lemma {:induction false} ItemIssuesAtFailingIndices(items: seq<Value>, found: string -> bool, from: nat)
    requires from <= |items|
    decreases |items| - from
    ensures forall k :: 0 <= k < |CheckUuidItems(items, found, from)| ==>
      exists j :: from <= j < |items| && AtIndex(CheckUuidItems(items, found, from)[k], j) && !ItemOk(items, j, found)
  {
    var r := CheckUuidItems(items, found, from);
    if from == |items| {
      assert r == [];
    } else {
      ItemIssuesAtFailingIndices(items, found, from + 1);
      var head := CheckUuidExists(Some(items[from]), [Index(from)], found);
      var rest := CheckUuidItems(items, found, from + 1);
      assert r == head + rest;
      forall k | 0 <= k < |r|
        ensures exists j :: from <= j < |items| && AtIndex(r[k], j) && !ItemOk(items, j, found)
      {
        if k < |head| {
          assert r[k] == head[k] && !ItemOk(items, from, found);
        } else {
          assert r[k] == rest[k - |head|];
          var j :| from + 1 <= j < |items| && AtIndex(rest[k - |head|], j) && !ItemOk(items, j, found);
        }
      }
    }
  }

  /** Every element that fails carries an issue at its index. */
  lemma {:induction false} FailingIndicesCarryIssues(items: seq<Value>, found: string -> bool, from: nat)
    requires from <= |items|
    decreases |items| - from
    ensures forall j :: from <= j < |items| && !ItemOk(items, j, found) ==>
      HasIssueAt(CheckUuidItems(items, found, from), j)
  {
    if from < |items| {
      FailingIndicesCarryIssues(items, found, from + 1);
      var head := CheckUuidExists(Some(items[from]), [Index(from)], found);
      var rest := CheckUuidItems(items, found, from + 1);
      var r := CheckUuidItems(items, found, from);
      assert r == head + rest;
      assert |r| == |head| + |rest|;
      forall j | from <= j < |items| && !ItemOk(items, j, found)
        ensures HasIssueAt(r, j)
      {
        if j == from {
          assert head != [] && r[0] == head[0];
          assert AtIndex(r[0], j);
        } else {
          assert HasIssueAt(rest, j);
          var k :| 0 <= k < |rest| && AtIndex(rest[k], j);
          assert r[|head| + k] == rest[k];
        }
      }
    }
  }

  /** The texts of an array of strings. */
  function Texts(items: seq<Value>): (r: seq<string>)
    requires forall j :: 0 <= j < |items| ==> items[j].Str?
    ensures |r| == |items| && forall j :: 0 <= j < |items| ==> r[j] == items[j].s
  {
    seq(|items|, j requires 0 <= j < |items| => items[j].s)
  }

  /** `z.array(z.uuid({ abort: true }).refine(found))` on a whole value: a non-array is a type issue at the root. */
  function CheckUuidArray(v: Value, found: string -> bool): (r: Validation<seq<string>>)
    ensures r.Success? <==> v.Arr? && forall j :: 0 <= j < |v.items| ==> ItemOk(v.items, j, found)
    ensures r.Success? ==> (|r.data| == |v.items| &&
      forall j :: 0 <= j < |v.items| ==> v.items[j].Str? && r.data[j] == v.items[j].s)
    ensures !v.Arr? ==> r == Failure([IssueAt("invalid_type", [])])
    ensures v.Arr? && r.Failure? ==> r.issues == CheckUuidItems(v.items, found, 0)
  {
    if !v.Arr? then Failure([IssueAt("invalid_type", [])])
    else
      var issues := CheckUuidItems(v.items, found, 0);
      if issues != [] then Failure(issues)
      else
        forall j | 0 <= j < |v.items| ensures v.items[j].Str? {
          assert ItemOk(v.items, j, found);
        }
        Success(Texts(v.items))
  }

  /** Every UUID passes a check with no existence refinement. */
  function Anything(s: string): bool { true }

  /** The keys of a concatenation are the keys of its parts. */
  lemma KeysConcat(a: seq<Issue>, b: seq<Issue>)
    ensures Keys(a + b) == Keys(a) + Keys(b)
  {
    forall k | k in Keys(a + b) ensures k in Keys(a) + Keys(b) {
      var i :| 0 <= i < |a + b| && KeyOf((a + b)[i]) == k;
      if i >= |a| { assert (a + b)[i] == b[i - |a|]; }
    }
    forall k | k in Keys(a) ensures k in Keys(a + b) {
      var i :| 0 <= i < |a| && KeyOf(a[i]) == k;
      assert (a + b)[i] == a[i];
    }
    forall k | k in Keys(b) ensures k in Keys(a + b) {
      var i :| 0 <= i < |b| && KeyOf(b[i]) == k;
      assert (a + b)[|a| + i] == b[i];
    }
  }

  lemma KeysOne(x: Issue)
    ensures Keys([x]) == {KeyOf(x)}
  {
    assert [x][0] == x;
  }

  /** The issues of one field check are filed under that field's name. */
  lemma KeysAt(a: seq<Issue>, k: string)
    requires |a| <= 1 && AllAt(a, [Key(k)])
    ensures Keys(a) == if a == [] then {} else {k}
  {
    if a != [] { assert KeyOf(a[0]) == k; }
  }
}
