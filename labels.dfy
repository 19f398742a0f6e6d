/**
 * Label handling in the query and delete routes: the comma-separated path
 * parameter is split into the query labels (`String.prototype.split`), a
 * record matches a query when one of its labels is among them
 * (`labels.some(label => query.includes(label))`), and a record carries a
 * label to delete when `labels.includes(label)`. Both tests call a method
 * of the record's `labels` value, so they throw when that value has no such
 * method; `None` below stands for that exception.
 */
module Labels {

  import opened Optional
  import opened Json
  import opened Tasks
  import opened Storage

  const Comma := ','

  /** `s.split(sep)`: the pieces between separators, empty pieces included. */
  function Split(s: string, sep: char): (pieces: seq<string>)
    ensures |pieces| >= 1
    ensures forall piece :: piece in pieces ==> sep !in piece
  {
    if s == [] then [[]]
    else
      var rest := Split(s[1..], sep);
      if s[0] == sep then [[]] + rest
      else
        assert forall piece :: piece in rest[1..] ==> piece in rest;
        [[s[0]] + rest[0]] + rest[1..]
  }

  /** `pieces.join(sep)` */
  function Join(pieces: seq<string>, sep: char): string
    requires |pieces| >= 1
  {
    if |pieces| == 1 then pieces[0] else pieces[0] + [sep] + Join(pieces[1..], sep)
  }

  /** Splitting loses nothing: the pieces joined back give the parameter. */
  lemma {:induction false} JoinSplit(s: string, sep: char)
    ensures Join(Split(s, sep), sep) == s
  {
    if s != [] {
      var rest := Split(s[1..], sep);
      JoinSplit(s[1..], sep);
      if s[0] != sep {
        if |rest| == 1 {
          assert Split(s, sep) == [[s[0]] + rest[0]];
        } else {
          assert Split(s, sep) == [[s[0]] + rest[0]] + rest[1..];
          assert Join(rest, sep) == rest[0] + [sep] + Join(rest[1..], sep);
          assert ([[s[0]] + rest[0]] + rest[1..])[1..] == rest[1..];
        }
      } else {
        assert Split(s, sep)[1..] == rest;
      }
    }
  }

  /** A word free of separators, followed by anything, stays one piece with the first piece of the rest. */
  lemma {:induction false} SplitWord(w: string, tail: string, sep: char)
    requires sep !in w
    ensures Split(w + tail, sep) == [w + Split(tail, sep)[0]] + Split(tail, sep)[1..]
  {
    if w != [] {
      SplitWord(w[1..], tail, sep);
      assert (w + tail)[0] == w[0] && (w + tail)[1..] == w[1..] + tail;
      assert [w[0]] + (w[1..] + Split(tail, sep)[0]) == w + Split(tail, sep)[0];
    } else {
      assert w + tail == tail;
      assert w + Split(tail, sep)[0] == Split(tail, sep)[0];
      assert Split(tail, sep) == [Split(tail, sep)[0]] + Split(tail, sep)[1..];
    }
  }

  /** Joining pieces that hold no separator and splitting again gives the pieces back. */
  lemma {:induction false} SplitJoin(pieces: seq<string>, sep: char)
    requires |pieces| >= 1
    requires forall piece :: piece in pieces ==> sep !in piece
    ensures Split(Join(pieces, sep), sep) == pieces
  {
    if |pieces| == 1 {
      SplitWord(pieces[0], [], sep);
      assert pieces[0] + [] == pieces[0];
      assert pieces == [pieces[0]];
    } else {
      var tail := Join(pieces[1..], sep);
      assert forall piece :: piece in pieces[1..] ==> piece in pieces;
      SplitJoin(pieces[1..], sep);
      assert ([sep] + tail)[0] == sep && ([sep] + tail)[1..] == tail;
      assert Split([sep] + tail, sep) == [[]] + pieces[1..];
      assert pieces[0] + [sep] + tail == pieces[0] + ([sep] + tail);
      SplitWord(pieces[0], [sep] + tail, sep);
      assert pieces[0] + [] == pieces[0];
      assert pieces == [pieces[0]] + pieces[1..];
    }
  }

  /** `prefix` begins `s`. */
  predicate IsPrefix(prefix: string, s: string) {
    |prefix| <= |s| && s[..|prefix|] == prefix
  }

  /** `s.includes(part)` for strings: `part` occurs in `s` at some position. */
  predicate IsInfix(part: string, s: string)
    decreases |s|
  {
    IsPrefix(part, s) || (s != [] && IsInfix(part, s[1..]))
  }

  /**
   * `t.labels.some(label => query.includes(label))`: does the record carry
   * one of the query labels? `None` when its `labels` is not an array.
   */
  function SharesLabel(t: Task, query: seq<string>): (r: Option<bool>)
    ensures r.Some? <==> IsArray(Get(t, "labels"))
    ensures r == Some(true) <==>
      IsArray(Get(t, "labels")) && exists name :: name in query && Str(name) in t["labels"].items
  {
    if "labels" in t && t["labels"].Arr? then
      var items := t["labels"].items;
      var found := exists i :: 0 <= i < |items| && items[i].Str? && items[i].s in query;
      assert found ==> exists name :: name in query && Str(name) in items by {
        if found {
          var i :| 0 <= i < |items| && items[i].Str? && items[i].s in query;
          assert Str(items[i].s) == items[i];
        }
      }
      Some(found)
    else
      None
  }

  /**
   * `t.labels.includes(label)`: an array holds the label as an element, a
   * string holds it as a substring; `None` when `labels` is neither.
   */
  function IncludesLabel(t: Task, tag: string): (r: Option<bool>)
    ensures r.Some? <==> IsArray(Get(t, "labels")) || IsString(Get(t, "labels"))
    ensures IsArray(Get(t, "labels")) ==> r == Some(Str(tag) in t["labels"].items)
  {
    if "labels" in t then
      match t["labels"]
      case Arr(items) => Some(Str(tag) in items)
      case Str(s) => Some(IsInfix(tag, s))
      case _ => None
    else
      None
  }

  /**
   * `ts.filter(t => t.labels.some(label => query.includes(label)))`:
   * `None` if the test throws on some record, otherwise the matching
   * records in their order in `ts`.
   */
  function Matching(ts: seq<Task>, query: seq<string>): (r: Option<seq<Task>>)
    ensures r.Some? <==> forall t :: t in ts ==> SharesLabel(t, query).Some?
    ensures r.Some? ==> forall t :: t in r.value <==> t in ts && SharesLabel(t, query) == Some(true)
    ensures r.Some? ==> Subsequence(r.value, ts)
    ensures r.Some? ==> forall t ::
      multiset(r.value)[t] == if SharesLabel(t, query) == Some(true) then multiset(ts)[t] else 0
    ensures r.Some? ==> |r.value| <= |ts|
  {
    if ts == [] then Some([])
    else
      assert ts == [ts[0]] + ts[1..];
      assert forall t :: t in ts <==> t == ts[0] || t in ts[1..];
      var rest := Matching(ts[1..], query);
      match SharesLabel(ts[0], query)
      case None => None
      case Some(hit) =>
        if rest.None? then None
        else
          FilterStep(ts[0], ts[1..], rest.value, hit);
          Some((if hit then [ts[0]] else []) + rest.value)
  }

  /**
   * `ts.filter(t => !t.labels.includes(label))`: `None` if the test throws
   * on some record, otherwise the records without the label, in order.
   */
  function Kept(ts: seq<Task>, tag: string): (r: Option<seq<Task>>)
    ensures r.Some? <==> forall t :: t in ts ==> IncludesLabel(t, tag).Some?
    ensures r.Some? ==> forall t :: t in r.value <==> t in ts && IncludesLabel(t, tag) == Some(false)
    ensures r.Some? ==> Subsequence(r.value, ts)
    ensures r.Some? ==> forall t ::
      multiset(r.value)[t] == if IncludesLabel(t, tag) == Some(false) then multiset(ts)[t] else 0
    ensures r.Some? ==> |r.value| <= |ts|
    ensures r.Some? ==> (|r.value| == |ts| <==> forall t :: t in ts ==> IncludesLabel(t, tag) == Some(false))
  {
    if ts == [] then Some([])
    else
      assert ts == [ts[0]] + ts[1..];
      assert forall t :: t in ts <==> t == ts[0] || t in ts[1..];
      var rest := Kept(ts[1..], tag);
      match IncludesLabel(ts[0], tag)
      case None => None
      case Some(carries) =>
        if rest.None? then None
        else
          FilterStep(ts[0], ts[1..], rest.value, !carries);
          Some((if !carries then [ts[0]] else []) + rest.value)
  }
}
