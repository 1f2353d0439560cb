/** Whole arrays of text edits. The reference meaning replaces all ranges of the original text at
    once; the rename service instead applies the edits one by one, bottom-up. */
module TextEditArrays {
  import opened Sequences
  import opened TextEdits

  // ----- the reference meaning, on flat offsets of the original text

  datatype FlatEdit = FlatEdit(start: nat, end: nat, text: string)

  /** The texts to insert at offset i, in array order. */
  function Inserted(fs: seq<FlatEdit>, i: nat): string {
    if fs == [] then "" else TextAt(fs[0], i) + Inserted(fs[1..], i)
  }

  function TextAt(f: FlatEdit, i: nat): string {
    if f.start == i then f.text else ""
  }

  /** Some range contains the character at offset i. */
  predicate Covered(fs: seq<FlatEdit>, i: nat) {
    fs != [] && (fs[0].start <= i < fs[0].end || Covered(fs[1..], i))
  }

  lemma {:induction false} CoveredByOne(fs: seq<FlatEdit>, i: nat)
    ensures Covered(fs, i) <==> exists k :: 0 <= k < |fs| && fs[k].start <= i < fs[k].end
  {
    if fs != [] {
      CoveredByOne(fs[1..], i);
      if k :| 0 <= k < |fs| && fs[k].start <= i < fs[k].end {
        if k > 0 {
          assert fs[1..][k - 1] == fs[k];
        }
      }
      if Covered(fs[1..], i) {
        var k :| 0 <= k < |fs[1..]| && fs[1..][k].start <= i < fs[1..][k].end;
        assert fs[k + 1] == fs[1..][k];
      }
    }
  }

  /** The result from offset i on: at every offset the inserted texts, then the original
      character unless some range covers it. */
  function Simultaneous(s: string, fs: seq<FlatEdit>, i: nat): string
    requires i <= |s|
    decreases |s| - i, 1
  {
    Inserted(fs, i) + Rest(s, fs, i)
  }

  function Rest(s: string, fs: seq<FlatEdit>, i: nat): string
    requires i <= |s|
    decreases |s| - i, 0
  {
    if i == |s| then "" else Kept(s, fs, i) + Simultaneous(s, fs, i + 1)
  }

  function Kept(s: string, fs: seq<FlatEdit>, i: nat): string
    requires i < |s|
  {
    if Covered(fs, i) then "" else [s[i]]
  }

  predicate AllFrom(fs: seq<FlatEdit>, p: nat) {
    forall k :: 0 <= k < |fs| ==> p <= fs[k].start
  }

  lemma {:induction false} NothingInserted(fs: seq<FlatEdit>, i: nat)
    requires forall k :: 0 <= k < |fs| ==> fs[k].start != i
    ensures Inserted(fs, i) == ""
  {
    if fs != [] {
      NothingInserted(fs[1..], i);
    }
  }

  lemma {:induction false} NothingCovered(fs: seq<FlatEdit>, i: nat)
    requires AllFrom(fs, i + 1)
    ensures !Covered(fs, i)
  {
    if fs != [] {
      NothingCovered(fs[1..], i);
    }
  }

  /** An offset at which nothing is inserted. */
  lemma Uninserted(s: string, fs: seq<FlatEdit>, i: nat)
    requires i <= |s| && Inserted(fs, i) == ""
    ensures Simultaneous(s, fs, i) == Rest(s, fs, i)
  {
    var rest := Rest(s, fs, i);
    assert "" + rest == rest;
  }

  /** A covered character contributes nothing. */
  lemma Removed(s: string, fs: seq<FlatEdit>, i: nat)
    requires i < |s| && Covered(fs, i)
    ensures Rest(s, fs, i) == Simultaneous(s, fs, i + 1)
  {
    var tail := Simultaneous(s, fs, i + 1);
    assert "" + tail == tail;
  }

  /** Text below every edit is kept. */
  lemma {:induction false} KeptBelow(s: string, fs: seq<FlatEdit>, i: nat, p: nat)
    requires i <= p <= |s| && AllFrom(fs, p)
    ensures Simultaneous(s, fs, i) == s[i..p] + Simultaneous(s, fs, p)
    decreases p - i
  {
    var rest := Simultaneous(s, fs, p);
    if i < p {
      NothingInserted(fs, i);
      NothingCovered(fs, i);
      Uninserted(s, fs, i);
      KeptBelow(s, fs, i + 1, p);
      Assoc([s[i]], s[i + 1..p], rest);
      assert [s[i]] + s[i + 1..p] == s[i..p];
    } else {
      assert s[i..p] == "" && "" + rest == rest;
    }
  }

  /** Above its own range the first edit has no effect. */
  lemma {:induction false} NoEffectAbove(s: string, gs: seq<FlatEdit>, i: nat)
    requires gs != [] && gs[0].start < i && gs[0].end <= i <= |s|
    ensures Simultaneous(s, gs, i) == Simultaneous(s, gs[1..], i)
    decreases |s| - i
  {
    var more := Inserted(gs[1..], i);
    assert "" + more == more;
    if i < |s| {
      NoEffectAbove(s, gs, i + 1);
    }
  }

  /** Inside its own range the first edit removes the text. */
  lemma {:induction false} RemovedInside(s: string, gs: seq<FlatEdit>, i: nat)
    requires gs != [] && gs[0].start < i <= gs[0].end <= |s| && AllFrom(gs[1..], gs[0].end)
    ensures Simultaneous(s, gs, i) == Simultaneous(s, gs[1..], gs[0].end)
    decreases gs[0].end - i
  {
    if i == gs[0].end {
      NoEffectAbove(s, gs, i);
    } else {
      assert Inserted(gs, i) == "" by {
        NothingInserted(gs[1..], i);
      }
      Uninserted(s, gs, i);
      Removed(s, gs, i);
      RemovedInside(s, gs, i + 1);
    }
  }

  /** At its own start the first edit puts its text in front of what follows its range. */
  lemma AtOwnStart(s: string, gs: seq<FlatEdit>, i: nat)
    requires gs != [] && i == gs[0].start <= gs[0].end <= |s| && AllFrom(gs[1..], gs[0].end)
    ensures Simultaneous(s, gs, i) == gs[0].text + Simultaneous(s, gs[1..], gs[0].end)
  {
    if i < gs[0].end {
      ReplaceAtOwnStart(s, gs, i);
    } else {
      RestOfInsertion(s, gs, i);
      Assoc(gs[0].text, Inserted(gs[1..], i), Rest(s, gs[1..], i));
    }
  }

  lemma ReplaceAtOwnStart(s: string, gs: seq<FlatEdit>, i: nat)
    requires gs != [] && i == gs[0].start < gs[0].end <= |s| && AllFrom(gs[1..], gs[0].end)
    ensures Simultaneous(s, gs, i) == gs[0].text + Simultaneous(s, gs[1..], gs[0].end)
  {
    OnlyFirstInserted(gs, i);
    RestOfReplacement(s, gs, i);
  }

  lemma OnlyFirstInserted(gs: seq<FlatEdit>, i: nat)
    requires gs != [] && i == gs[0].start && AllFrom(gs[1..], i + 1)
    ensures Inserted(gs, i) == gs[0].text
  {
    NothingInserted(gs[1..], i);
    var text := gs[0].text;
    assert text + "" == text;
  }

  lemma RestOfReplacement(s: string, gs: seq<FlatEdit>, i: nat)
    requires gs != [] && i == gs[0].start < gs[0].end <= |s| && AllFrom(gs[1..], gs[0].end)
    ensures Rest(s, gs, i) == Simultaneous(s, gs[1..], gs[0].end)
  {
    Removed(s, gs, i);
    RemovedInside(s, gs, i + 1);
  }

  lemma RestOfInsertion(s: string, gs: seq<FlatEdit>, i: nat)
    requires gs != [] && gs[0].start == gs[0].end == i <= |s|
    ensures Rest(s, gs, i) == Rest(s, gs[1..], i)
  {
    if i < |s| {
      NoEffectAbove(s, gs, i + 1);
      SameRest(s, gs, gs[1..], i);
    }
  }

  lemma SameRest(s: string, fs: seq<FlatEdit>, gs: seq<FlatEdit>, i: nat)
    requires i < |s| && Covered(fs, i) == Covered(gs, i)
    requires Simultaneous(s, fs, i + 1) == Simultaneous(s, gs, i + 1)
    ensures Rest(s, fs, i) == Rest(s, gs, i)
  {
  }

  /** An edit below all others replaces its range in the text the others produce. */
  lemma AddBelow(s: string, gs: seq<FlatEdit>)
    requires gs != [] && gs[0].start <= gs[0].end <= |s| && AllFrom(gs[1..], gs[0].end)
    ensures gs[0].end <= |Simultaneous(s, gs[1..], 0)|
    ensures Simultaneous(s, gs, 0) == Replace(Simultaneous(s, gs[1..], 0), gs[0].start, gs[0].end, gs[0].text)
  {
    KeptBelow(s, gs, 0, gs[0].start);
    AtOwnStart(s, gs, gs[0].start);
    KeptBelow(s, gs[1..], 0, gs[0].end);
    AddBelowPieces(s, Simultaneous(s, gs[1..], 0), Simultaneous(s, gs, 0), Simultaneous(s, gs[1..], gs[0].end), gs[0]);
  }

  lemma AddBelowPieces(s: string, was: string, now: string, rest: string, f: FlatEdit)
    requires f.start <= f.end <= |s|
    requires was == s[0..f.end] + rest
    requires now == s[0..f.start] + (f.text + rest)
    ensures f.end <= |was| && now == Replace(was, f.start, f.end, f.text)
  {
    var kept, removed := s[0..f.start], s[f.start..f.end];
    assert s[0..f.end] == kept + removed;
    Assoc(kept, f.text, rest);
    ReplaceMiddle(was, kept, removed, rest, f.start, f.end, f.text);
  }
}
