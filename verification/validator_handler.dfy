/**
 * `validatorHandler`: turns a failed validation into a 400 response whose
 * `errors` object groups the issue messages by the first segment of each
 * issue's path.
 */
module ValidatorHandler {
  import opened Wrappers
  import Strings

  /** One step of an issue path: an object key or an array index. */
  datatype Segment = Key(name: string) | Index(i: nat)

  /** An issue's message: one text, or a list of texts. */
  datatype Message = Single(text: string) | Many(texts: seq<string>)

  datatype Issue = Issue(code: string, path: seq<Segment>, message: Message)

  /** The `errors` object: field name to list of messages. */
  type Errors = map<string, seq<string>>

  /** The JavaScript property key a path segment becomes. */
  function SegmentKey(s: Segment): string {
    match s
    case Key(name) => name
    case Index(i) => Strings.NatToString(i)
  }

  /** `item.path[0]` used as a property key; an empty path gives `undefined`. */
  function KeyOf(issue: Issue): string {
    if issue.path == [] then "undefined" else SegmentKey(issue.path[0])
  }

  /** The list stored under `k`, or the empty list a missing key starts with. */
  function Get(errors: Errors, k: string): seq<string> {
    if k in errors then errors[k] else []
  }

  /** One call of the reduce callback: a list message replaces, a text is appended. */
  function Step(acc: Errors, issue: Issue): Errors {
    var k := KeyOf(issue);
    match issue.message
    case Many(texts) => acc[k := texts]
    case Single(text) => acc[k := Get(acc, k) + [text]]
  }

  /** The reduce over the issues, from an empty object, left to right. */
  function Group(issues: seq<Issue>): Errors {
    if issues == [] then map[]
    else Step(Group(issues[..|issues| - 1]), issues[|issues| - 1])
  }

  /** The reduce as the source runs it: a loop that updates the accumulator in place. */
  method GroupIssues(issues: seq<Issue>) returns (errors: Errors)
    ensures errors == Group(issues)
  {
    errors := map[];
    var i := 0;
    while i < |issues|
      invariant 0 <= i <= |issues|
      invariant errors == Group(issues[..i])
    {
      var item := issues[i];
      var key := KeyOf(item);
      if key !in errors {
        errors := errors[key := []];
      }
      match item.message {
        case Many(texts) =>
          errors := errors[key := texts];
        case Single(text) =>
          errors := errors[key := errors[key] + [text]];
      }
      assert issues[..i + 1][..i] == issues[..i];
      i := i + 1;
    }
    assert issues[..|issues|] == issues;
  }

  /** The outcome of running a request validator. */
  datatype Validation<T> = Success(data: T) | Failure(issues: seq<Issue>)

  datatype BadRequest = BadRequest(status: int, message: string, errors: Errors)

  /**
   * `validatorHandler`: nothing on success (the request proceeds), otherwise
   * 400 "Bad Request" with the grouped errors.
   */
  method Handle<T>(result: Validation<T>) returns (response: Option<BadRequest>)
    ensures result.Success? <==> response.None?
    ensures result.Failure? ==> response == Some(BadRequest(400, "Bad Request", Group(result.issues)))
  {
    if result.Success? {
      return None;
    }
    var errors := GroupIssues(result.issues);
    return Some(BadRequest(400, "Bad Request", errors));
  }

  // ----- what the grouping computes, stated independently of the fold -----

  /** The set of first-segment keys of the issues. */
  function Keys(issues: seq<Issue>): set<string> {
    set i | 0 <= i < |issues| :: KeyOf(issues[i])
  }

  /** The texts of the single-message issues filed under `k`, in issue order. */
  function TextsFor(issues: seq<Issue>, k: string): seq<string> {
    if issues == [] then []
    else
      var last := issues[|issues| - 1];
      TextsFor(issues[..|issues| - 1], k)
      + (if KeyOf(last) == k && last.message.Single? then [last.message.text] else [])
  }

  /** The position of the last list-message issue filed under `k`, if any. */
  function LastReset(issues: seq<Issue>, k: string): (r: Option<nat>)
    ensures r.Some? ==> r.value < |issues| && KeyOf(issues[r.value]) == k && issues[r.value].message.Many?
  {
    if issues == [] then None
    else
      var n := |issues| - 1;
      if KeyOf(issues[n]) == k && issues[n].message.Many? then Some(n)
      else LastReset(issues[..n], k)
  }

  /**
   * What ends up under `k`: the last list message filed under `k` followed by
   * the texts filed under `k` after it, or all those texts if there is none.
   */
  function Expected(issues: seq<Issue>, k: string): seq<string> {
    match LastReset(issues, k)
    case None => TextsFor(issues, k)
    case Some(j) => issues[j].message.texts + TextsFor(issues[j + 1..], k)
  }

  /** The key set of `errors` is exactly the set of first path segments. */
  lemma {:induction false} GroupKeys(issues: seq<Issue>)
    ensures Group(issues).Keys == Keys(issues)
  {
    if issues != [] {
      var n := |issues| - 1;
      var init := issues[..n];
      GroupKeys(init);
      assert Keys(issues) == Keys(init) + {KeyOf(issues[n])} by {
        forall k | k in Keys(issues) ensures k in Keys(init) + {KeyOf(issues[n])} {
          var i :| 0 <= i < |issues| && KeyOf(issues[i]) == k;
          if i < n { assert init[i] == issues[i]; }
        }
        forall k | k in Keys(init) ensures k in Keys(issues) {
          var i :| 0 <= i < |init| && KeyOf(init[i]) == k;
          assert issues[i] == init[i];
        }
      }
    }
  }

  lemma {:induction false} TextsForSnoc(prefix: seq<Issue>, x: Issue, k: string)
    ensures TextsFor(prefix + [x], k)
      == TextsFor(prefix, k) + (if KeyOf(x) == k && x.message.Single? then [x.message.text] else [])
  {
    assert (prefix + [x])[..|prefix|] == prefix;
  }

  /** Appending an issue that is not a list message under `k` leaves the last reset where it was. */
  lemma LastResetSnoc(init: seq<Issue>, x: Issue, k: string)
    requires !(KeyOf(x) == k && x.message.Many?)
    ensures LastReset(init + [x], k) == LastReset(init, k)
  {
    assert (init + [x])[..|init|] == init;
  }

  /** Appending an issue that is not a list message under `k` appends its text, if it is filed under `k`. */
  lemma {:induction false} ExpectedSnoc(init: seq<Issue>, x: Issue, k: string)
    requires !(KeyOf(x) == k && x.message.Many?)
    ensures Expected(init + [x], k)
      == Expected(init, k) + (if KeyOf(x) == k && x.message.Single? then [x.message.text] else [])
  {
    LastResetSnoc(init, x, k);
    var r := LastReset(init, k);
    if r.None? {
      TextsForSnoc(init, x, k);
    } else {
      ExpectedSnocAfterReset(init, x, k, r.value);
    }
  }

  lemma ExpectedSnocAfterReset(init: seq<Issue>, x: Issue, k: string, j: nat)
    requires LastReset(init + [x], k) == LastReset(init, k) == Some(j)
    ensures Expected(init + [x], k)
      == Expected(init, k) + (if KeyOf(x) == k && x.message.Single? then [x.message.text] else [])
  {
    var issues := init + [x];
    assert Expected(issues, k) == issues[j].message.texts + TextsFor(issues[j + 1..], k);
    assert Expected(init, k) == init[j].message.texts + TextsFor(init[j + 1..], k);
    assert issues[j + 1..] == init[j + 1..] + [x];
    assert issues[j] == init[j];
    TextsForSnoc(init[j + 1..], x, k);
  }

  /** Each list in `errors` is what `Expected` describes. */
  lemma {:induction false} GroupEntries(issues: seq<Issue>, k: string)
    ensures Get(Group(issues), k) == Expected(issues, k)
  {
    if issues != [] {
      var n := |issues| - 1;
      var init := issues[..n];
      var x := issues[n];
      assert issues == init + [x];
      GroupEntries(init, k);
      StepGet(Group(init), x, k);
      if KeyOf(x) == k && x.message.Many? {
        assert LastReset(issues, k) == Some(n);
        assert issues[n + 1..] == [];
      } else {
        ExpectedSnoc(init, x, k);
      }
    }
  }

  /** Without list messages under `k`, its list holds its texts in issue order. */
  lemma {:induction false} GroupSingles(issues: seq<Issue>, k: string)
    requires forall i :: 0 <= i < |issues| && KeyOf(issues[i]) == k ==> issues[i].message.Single?
    ensures Get(Group(issues), k) == TextsFor(issues, k)
  {
    GroupEntries(issues, k);
    assert LastReset(issues, k).None?;
  }

  /** A list message discards what was gathered under its key so far. */
  lemma ListMessageResets(prefix: seq<Issue>, x: Issue, rest: seq<Issue>)
    requires x.message.Many?
    requires forall i :: 0 <= i < |rest| ==> KeyOf(rest[i]) != KeyOf(x) || rest[i].message.Single?
    ensures Get(Group(prefix + [x] + rest), KeyOf(x)) == x.message.texts + TextsFor(rest, KeyOf(x))
  {
    var all := prefix + [x] + rest;
    var k := KeyOf(x);
    var n := |prefix|;
    GroupEntries(all, k);
    LastResetAt(prefix, x, rest);
    assert all[n + 1..] == rest;
  }

  lemma {:induction false} LastResetAt(prefix: seq<Issue>, x: Issue, rest: seq<Issue>)
    requires x.message.Many?
    requires forall i :: 0 <= i < |rest| ==> KeyOf(rest[i]) != KeyOf(x) || rest[i].message.Single?
    ensures LastReset(prefix + [x] + rest, KeyOf(x)) == Some(|prefix|)
    decreases |rest|
  {
    var all := prefix + [x] + rest;
    if rest == [] {
      assert all[|all| - 1] == x;
    } else {
      var m := |rest| - 1;
      assert all[..|all| - 1] == prefix + [x] + rest[..m];
      assert all[|all| - 1] == rest[m];
      LastResetAt(prefix, x, rest[..m]);
    }
  }

  /** The issues filed under `k`, in order. */
  function Only(issues: seq<Issue>, k: string): seq<Issue> {
    if issues == [] then []
    else
      var n := |issues| - 1;
      Only(issues[..n], k) + (if KeyOf(issues[n]) == k then [issues[n]] else [])
  }

  /** The list under `k` after one step depends only on the list under `k` before it. */
  lemma StepGet(acc: Errors, x: Issue, k: string)
    ensures Get(Step(acc, x), k)
      == if KeyOf(x) != k then Get(acc, k)
         else if x.message.Many? then x.message.texts
         else Get(acc, k) + [x.message.text]
  {
  }

  /** Issues filed under other keys never change the list under `k`. */
  lemma {:induction false} GroupIsolatesKeys(issues: seq<Issue>, k: string)
    ensures Get(Group(issues), k) == Get(Group(Only(issues, k)), k)
  {
    if issues != [] {
      var n := |issues| - 1;
      var init := issues[..n];
      var x := issues[n];
      GroupIsolatesKeys(init, k);
      StepGet(Group(init), x, k);
      if KeyOf(x) == k {
        var o := Only(init, k) + [x];
        assert Only(issues, k) == o;
        assert o[..|o| - 1] == Only(init, k);
        assert Group(o) == Step(Group(Only(init, k)), x);
        StepGet(Group(Only(init, k)), x, k);
      } else {
        assert Only(issues, k) == Only(init, k);
      }
    }
  }

  /** Only the first path segment matters: the rest of each path is ignored. */
  lemma {:induction false} GroupIgnoresPathTails(a: seq<Issue>, b: seq<Issue>)
    requires |a| == |b|
    requires forall i :: 0 <= i < |a| ==> KeyOf(a[i]) == KeyOf(b[i]) && a[i].message == b[i].message
    ensures Group(a) == Group(b)
  {
    if a != [] {
      var n := |a| - 1;
      GroupIgnoresPathTails(a[..n], b[..n]);
    }
  }
}
