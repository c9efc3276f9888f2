/** The end of `Adopt`: owner markers are inserted one at a time from the bottom of the file to the top. */
module Insertions {
  import opened Sequences

  datatype Insertion = Insertion(after: nat, marker: string)

  /** All markers at once: each line, and after it the marker for its index if there is one. */
  function InsertUpTo(lines: seq<string>, marks: map<nat, string>, n: nat): seq<string>
    requires n <= |lines|
  {
    if n == 0 then []
    else InsertUpTo(lines, marks, n - 1) + [lines[n - 1]] + if n - 1 in marks then [marks[n - 1]] else []
  }

  function InsertAll(lines: seq<string>, marks: map<nat, string>): seq<string> { InsertUpTo(lines, marks, |lines|) }

  function MarksOf(ins: seq<Insertion>): map<nat, string> {
    if ins == [] then map[] else MarksOf(ins[..|ins| - 1])[ins[|ins| - 1].after := ins[|ins| - 1].marker]
  }

  predicate DistinctPositions(ins: seq<Insertion>) {
    forall p, q :: 0 <= p < q < |ins| ==> ins[p].after != ins[q].after
  }

  predicate Descending(ins: seq<Insertion>) { forall p, q :: 0 <= p < q < |ins| ==> ins[p].after > ins[q].after }

  lemma {:induction false} MarksOfMembers(ins: seq<Insertion>)
    requires DistinctPositions(ins)
    ensures forall i :: i in MarksOf(ins) ==> Insertion(i, MarksOf(ins)[i]) in ins
    ensures forall x :: x in ins ==> x.after in MarksOf(ins) && MarksOf(ins)[x.after] == x.marker
  {
    if ins != [] {
      var front, last := ins[..|ins| - 1], ins[|ins| - 1];
      MarksOfMembers(front);
      forall x | x in ins ensures x.after in MarksOf(ins) && MarksOf(ins)[x.after] == x.marker {
        assert x in front || x == last;
      }
    }
  }

  /** The markers do not depend on the order they are listed in. */
  lemma MarksOfOrder(a: seq<Insertion>, b: seq<Insertion>)
    requires DistinctPositions(a) && DistinctPositions(b)
    requires forall x :: x in a <==> x in b
    ensures MarksOf(a) == MarksOf(b)
  {
    MarksOfMembers(a);
    MarksOfMembers(b);
  }

  lemma SwapKeeps(s: seq<Insertion>, i: nat, j: nat)
    requires i < j < |s| && DistinctPositions(s)
    ensures var t := s[i := s[j]][j := s[i]];
            DistinctPositions(t) && forall x :: x in t <==> x in s
  {
    var t := s[i := s[j]][j := s[i]];
    assert t[i] == s[j] && t[j] == s[i];
    forall x | x in s ensures x in t {
      var k :| 0 <= k < |s| && s[k] == x;
      assert t[if k == i then j else if k == j then i else k] == x;
    }
  }

  /** The exchange sort, largest position first. */
  method SortDescending(ins: array<Insertion>)
    requires DistinctPositions(ins[..])
    modifies ins
    ensures Descending(ins[..]) && MarksOf(ins[..]) == MarksOf(old(ins[..]))
    ensures forall x :: x in ins[..] <==> x in old(ins[..])
  {
    var i := 0;
    while i < ins.Length
      invariant 0 <= i <= ins.Length
      invariant DistinctPositions(ins[..]) && forall x :: x in ins[..] <==> x in old(ins[..])
      invariant forall p, q :: 0 <= p < i && p < q < ins.Length ==> ins[p].after > ins[q].after
    {
      var j := i + 1;
      while j < ins.Length
        invariant i < j <= ins.Length
        invariant DistinctPositions(ins[..]) && forall x :: x in ins[..] <==> x in old(ins[..])
        invariant forall p, q :: 0 <= p < i && p < q < ins.Length ==> ins[p].after > ins[q].after
        invariant forall q :: i < q < j ==> ins[i].after > ins[q].after
      {
        if ins[j].after > ins[i].after {
          ghost var s := ins[..];
          ins[i], ins[j] := ins[j], ins[i];
          assert ins[..] == s[i := s[j]][j := s[i]];
          SwapKeeps(s, i, j);
        }
        assert ins[..][i].after != ins[..][j].after;
        j := j + 1;
      }
      i := i + 1;
    }
    MarksOfOrder(ins[..], old(ins[..]));
  }

  lemma {:induction false} NoMarksBelow(lines: seq<string>, marks: map<nat, string>, n: nat)
    requires n <= |lines| && forall i :: i in marks ==> i >= n
    ensures InsertUpTo(lines, marks, n) == lines[..n]
  {
    if n > 0 {
      NoMarksBelow(lines, marks, n - 1);
      assert lines[..n] == lines[..n - 1] + [lines[n - 1]];
    }
  }

  lemma InsertLater<T>(s: seq<T>, p: nat, x: T, more: seq<T>)
    requires p <= |s|
    ensures (s[..p] + [x] + s[p..]) + more == (s + more)[..p] + [x] + (s + more)[p..]
  {}

  /** Inserting one more marker above all others, by position, is inserting it with the others. */
  lemma {:induction false} InsertOne(lines: seq<string>, marks: map<nat, string>, p: nat, marker: string, n: nat)
    requires p < n <= |lines| && forall i :: i in marks ==> i > p
    ensures var r := InsertUpTo(lines, marks, n);
            p < |r| && InsertUpTo(lines, marks[p := marker], n) == r[..p + 1] + [marker] + r[p + 1..]
    decreases n
  {
    if n == p + 1 {
      NoMarksBelow(lines, marks, n);
      NoMarksBelow(lines, marks, p);
      NoMarksBelow(lines, marks[p := marker], p);
    } else {
      InsertOne(lines, marks, p, marker, n - 1);
      var r := InsertUpTo(lines, marks, n - 1);
      InsertLater(r, p + 1, marker, [lines[n - 1]]);
      InsertLater(r + [lines[n - 1]], p + 1, marker, if n - 1 in marks then [marks[n - 1]] else []);
    }
  }

  /** The sort and the insertions of `Adopt`, which write the file as if all markers went in at once. */
  method InsertMarkers(lines: seq<string>, ins: array<Insertion>) returns (out: seq<string>)
    requires DistinctPositions(ins[..]) && forall k :: 0 <= k < ins.Length ==> ins[k].after < |lines|
    modifies ins
    ensures out == InsertAll(lines, MarksOf(old(ins[..])))
  {
    hide MarksOf, InsertUpTo;
    SortDescending(ins);
    ghost var sorted := ins[..];
    out := lines;
    NoMarks(lines);
    var k := 0;
    while k < ins.Length
      invariant 0 <= k <= ins.Length && ins[..] == sorted
      invariant out == InsertAll(lines, MarksOf(sorted[..k]))
    {
      var ix := ins[k];
      assert ix == sorted[k] && ix in sorted;
      InsertNext(lines, sorted, k);
      out := out[..ix.after + 1] + [ix.marker] + out[ix.after + 1..];
      k := k + 1;
    }
    assert sorted[..k] == sorted;
  }

  lemma NoMarks(lines: seq<string>)
    ensures InsertAll(lines, MarksOf([])) == lines
    ensures forall ins: seq<Insertion> :: MarksOf(ins[..0]) == MarksOf([])
  {
    NoMarksBelow(lines, map[], |lines|);
    assert lines[..|lines|] == lines;
  }

  lemma InsertNext(lines: seq<string>, ins: seq<Insertion>, k: nat)
    requires k < |ins| && Descending(ins) && ins[k].after < |lines|
    ensures var r := InsertAll(lines, MarksOf(ins[..k]));
            ins[k].after < |r| &&
            InsertAll(lines, MarksOf(ins[..k + 1])) == r[..ins[k].after + 1] + [ins[k].marker] + r[ins[k].after + 1..]
  {
    AboveOthers(ins, k);
    InsertOne(lines, MarksOf(ins[..k]), ins[k].after, ins[k].marker, |lines|);
    assert ins[..k + 1][..k] == ins[..k];
  }

  lemma AboveOthers(ins: seq<Insertion>, k: nat)
    requires k < |ins| && Descending(ins)
    ensures forall i :: i in MarksOf(ins[..k]) ==> i > ins[k].after
  {
    MarksOfMembers(ins[..k]);
    forall i | i in MarksOf(ins[..k]) ensures i > ins[k].after {
      var x := Insertion(i, MarksOf(ins[..k])[i]);
      var p :| 0 <= p < k && ins[..k][p] == x;
      assert ins[p] == x;
    }
  }
}
