// Records laid out one after another in a buffer, and what a record loop
// makes of them.  Every table reader walks its entry loop the same way: at
// an entry it reads the entry and goes on after it.  The lemmas here turn
// that one step, proved for each kind of entry, into the outcome of the
// whole loop over a run of entries.
module Layouts {
  import opened Js
  import opened Decoding

  /** The wire forms of ws, one after another. */
  ghost function Laid<W>(enc: W -> bytes, ws: seq<W>): (r: bytes)
    ensures ws == [] ==> r == []
    decreases |ws|
  {
    if ws == [] then [] else enc(ws[0]) + Laid(enc, ws[1..])
  }

  /** The value each record stands for, in order. */
  function Values<W, T>(val: W -> T, ws: seq<W>): (r: seq<T>)
    ensures |r| == |ws|
    ensures forall i :: 0 <= i < |ws| ==> r[i] == val(ws[i])
    decreases |ws|
  {
    if ws == [] then [] else [val(ws[0])] + Values(val, ws[1..])
  }

  /** A record that stands for its first component: a decoded entry and the bytes of its descriptor loop. */
  function First<T>(w: (T, bytes)): T
  {
    w.0
  }

  /** The step reads each record of ws wherever that record is found, as its value, and goes on after it. */
  ghost predicate Reads<W(!new), T>(b: bytes, at: (bytes, nat) -> Step<T>, enc: W -> bytes, val: W -> T, ws: seq<W>)
  {
    forall w, p: nat {:trigger At(b, p, enc(w))} :: w in ws && At(b, p, enc(w)) ==> at(b, p) == Read(val(w), p + |enc(w)|)
  }

  /** Wherever the step reads an entry, the loop keeps it and goes on where the step stopped. */
  ghost predicate Unfolds<T(!new)>(b: bytes, from: (bytes, nat) -> Decoded<seq<T>>, at: (bytes, nat) -> Step<T>)
  {
    forall p: nat, x, next: nat :: at(b, p) == Read(x, next) ==> from(b, p) == Chain([x], from(b, next))
  }

  /**
   * A loop whose step reads every record of ws, walked over a run of those
   * records, reads their values, followed by whatever it makes of the bytes
   * after the run.
   */
  lemma {:induction false} LaidWalk<W(!new), T(!new)>(b: bytes, from: (bytes, nat) -> Decoded<seq<T>>, at: (bytes, nat) -> Step<T>,
                                          enc: W -> bytes, val: W -> T, ws: seq<W>, o: nat)
    requires At(b, o, Laid(enc, ws)) && Reads(b, at, enc, val, ws) && Unfolds(b, from, at)
    ensures from(b, o) == Chain(Values(val, ws), from(b, o + |Laid(enc, ws)|))
    decreases |ws|
  {
    if ws != [] {
      var w, tail := ws[0], ws[1..];
      LaidFirst(b, at, enc, val, ws, o);
      LaidWalk(b, from, at, enc, val, tail, o + |enc(w)|);
      WalkStep(b, from, at, o, o + |enc(w)|, o + |Laid(enc, ws)|, val(w), Values(val, tail), Values(val, ws));
    } else {
      ChainEmpty(from(b, o));
    }
  }

  /** A step that reads x and goes on to a loop reading xs makes the loop read x and then xs. */
  lemma {:induction false} WalkStep<T(!new)>(b: bytes, from: (bytes, nat) -> Decoded<seq<T>>, at: (bytes, nat) -> Step<T>,
                                            o: nat, m: nat, e: nat, x: T, xs: seq<T>, all: seq<T>)
    requires Unfolds(b, from, at) && at(b, o) == Read(x, m) && from(b, m) == Chain(xs, from(b, e)) && all == [x] + xs
    ensures from(b, o) == Chain(all, from(b, e))
  {
    ChainCons(x, xs, from(b, e));
  }

  /** Wherever fewer than k bytes are left, the loop ends with nothing more. */
  ghost predicate Ends<T>(b: bytes, from: (bytes, nat) -> Decoded<seq<T>>, k: nat)
  {
    forall p: nat :: |b| < p + k ==> from(b, p) == Ok([])
  }

  /** A run of records followed by too few bytes for another is read as exactly their values. */
  lemma {:induction false} LaidWhole<W(!new), T(!new)>(b: bytes, from: (bytes, nat) -> Decoded<seq<T>>, at: (bytes, nat) -> Step<T>,
                                          enc: W -> bytes, val: W -> T, ws: seq<W>, o: nat, k: nat)
    requires At(b, o, Laid(enc, ws)) && Reads(b, at, enc, val, ws) && Unfolds(b, from, at)
    requires Ends(b, from, k) && |b| < o + |Laid(enc, ws)| + k
    ensures from(b, o) == Ok(Values(val, ws))
  {
    LaidWalk(b, from, at, enc, val, ws, o);
    assert from(b, o + |Laid(enc, ws)|) == Ok([]);
    ChainDone(Values(val, ws));
  }

  /** Wherever the step reads an entry and entries are left to count, the counted loop keeps it and goes on with one fewer. */
  ghost predicate CountsDown<T(!new)>(b: bytes, from: (bytes, nat, nat) -> Decoded<seq<T>>, at: (bytes, nat) -> Step<T>)
  {
    forall p: nat, k: nat, x, next: nat :: 0 < k && at(b, p) == Read(x, next) ==> from(b, p, k) == Chain([x], from(b, next, k - 1))
  }

  /**
   * The counted form: a loop over at most n entries whose step reads every
   * record of ws, walked over a run of those records, reads their values,
   * followed by whatever it makes of the bytes after the run with the
   * entries left to count.
   */
  lemma {:induction false} LaidCount<W(!new), T(!new)>(b: bytes, from: (bytes, nat, nat) -> Decoded<seq<T>>, at: (bytes, nat) -> Step<T>,
                                           enc: W -> bytes, val: W -> T, ws: seq<W>, o: nat, n: nat)
    requires |ws| <= n && At(b, o, Laid(enc, ws)) && Reads(b, at, enc, val, ws) && CountsDown(b, from, at)
    ensures from(b, o, n) == Chain(Values(val, ws), from(b, o + |Laid(enc, ws)|, n - |ws|))
    decreases |ws|
  {
    if ws != [] {
      var w, tail := ws[0], ws[1..];
      LaidFirst(b, at, enc, val, ws, o);
      LaidCount(b, from, at, enc, val, tail, o + |enc(w)|, n - 1);
      ChainCons(val(w), Values(val, tail), from(b, o + |Laid(enc, ws)|, n - |ws|));
    } else {
      ChainEmpty(from(b, o, n));
    }
  }

  /** The first record of a run is read, and the rest of the run follows it. */
  lemma {:induction false} LaidFirst<W(!new), T>(b: bytes, at: (bytes, nat) -> Step<T>, enc: W -> bytes, val: W -> T, ws: seq<W>, o: nat)
    requires ws != [] && At(b, o, Laid(enc, ws)) && Reads(b, at, enc, val, ws)
    ensures at(b, o) == Read(val(ws[0]), o + |enc(ws[0])|)
    ensures At(b, o + |enc(ws[0])|, Laid(enc, ws[1..])) && Reads(b, at, enc, val, ws[1..])
    ensures |Laid(enc, ws)| == |enc(ws[0])| + |Laid(enc, ws[1..])| && Values(val, ws) == [val(ws[0])] + Values(val, ws[1..])
  {
    var w, tail := ws[0], ws[1..];
    AtSplit(b, o, enc(w), Laid(enc, tail));
    assert w in ws;
    assert forall v :: v in tail ==> v in ws;
  }

  /** A run with one more record at its end is laid out with that record's wire form at its end. */
  lemma {:induction false} LaidSnoc<W>(enc: W -> bytes, ws: seq<W>, w: W)
    ensures Laid(enc, ws + [w]) == Laid(enc, ws) + enc(w)
    decreases |ws|
  {
    if ws == [] {
      assert ws + [w] == [w] && [w][1..] == [];
    } else {
      assert (ws + [w])[0] == ws[0] && (ws + [w])[1..] == ws[1..] + [w];
      LaidSnoc(enc, ws[1..], w);
    }
  }

  /** Two runs laid out one after the other are the run of both. */
  lemma {:induction false} LaidAppend<W>(enc: W -> bytes, xs: seq<W>, ys: seq<W>)
    ensures Laid(enc, xs + ys) == Laid(enc, xs) + Laid(enc, ys)
    decreases |xs|
  {
    if xs == [] {
      assert xs + ys == ys;
    } else {
      assert (xs + ys)[0] == xs[0] && (xs + ys)[1..] == xs[1..] + ys;
      LaidAppend(enc, xs[1..], ys);
    }
  }

  /** Record j of a run is found where the records before it end. */
  lemma {:induction false} LaidAt<W>(b: bytes, o: nat, enc: W -> bytes, ws: seq<W>, j: nat)
    requires j < |ws| && At(b, o, Laid(enc, ws))
    ensures At(b, o + |Laid(enc, ws[..j])|, enc(ws[j]))
  {
    var rest := ws[j + 1..];
    assert ws == ws[..j] + ([ws[j]] + rest);
    assert ([ws[j]] + rest)[0] == ws[j] && ([ws[j]] + rest)[1..] == rest;
    LaidAppend(enc, ws[..j], [ws[j]] + rest);
    AtSplit(b, o, Laid(enc, ws[..j]), enc(ws[j]) + Laid(enc, rest));
    AtSplit(b, o + |Laid(enc, ws[..j])|, enc(ws[j]), Laid(enc, rest));
  }

  /** The first j + 1 records of a run are the first j and record j. */
  lemma {:induction false} LaidGrown<W>(enc: W -> bytes, ws: seq<W>, j: nat)
    requires j < |ws|
    ensures ws[..j + 1] == ws[..j] + [ws[j]]
    ensures |Laid(enc, ws[..j + 1])| == |Laid(enc, ws[..j])| + |enc(ws[j])|
  {
    assert ws[..j + 1] == ws[..j] + [ws[j]];
    LaidSnoc(enc, ws[..j], ws[j]);
  }

  /** Where record j of ws is found, the step reads it as value j of vals and says where the record ends. */
  ghost predicate FoundAt<W, T>(b: bytes, at: (bytes, nat) -> Decoded<Field<T>>, enc: W -> bytes, ws: seq<W>, vals: seq<T>,
                                j: nat, p: nat)
  {
    j < |ws| && j < |vals| && At(b, p, enc(ws[j])) ==> at(b, p) == Ok(Field(vals[j], p + |enc(ws[j])|))
  }

  /** The step reads every record of ws, wherever it is found. */
  ghost predicate Finds<W, T>(b: bytes, at: (bytes, nat) -> Decoded<Field<T>>, enc: W -> bytes, ws: seq<W>, vals: seq<T>)
  {
    forall j: nat, p: nat {:trigger FoundAt(b, at, enc, ws, vals, j, p)} :: FoundAt(b, at, enc, ws, vals, j, p)
  }

  /**
   * One round of a counted loop that appends each entry its step reads:
   * having read the first j values where the first j records end, where the
   * step reads value j, the next round reads the first j + 1.
   */
  ghost predicate Round<W, T>(b: bytes, from: (bytes, nat, nat) -> Decoded<Field<seq<T>>>, at: (bytes, nat) -> Decoded<Field<T>>,
                              enc: W -> bytes, ws: seq<W>, vals: seq<T>, o: nat, j: nat)
  {
    j < |ws| && j < |vals| ==>
      (from(b, o, j) == Ok(Field(vals[..j], o + |Laid(enc, ws[..j])|))
       && at(b, o + |Laid(enc, ws[..j])|) == Ok(Field(vals[j], o + |Laid(enc, ws[..j])| + |enc(ws[j])|))
       ==> from(b, o, j + 1) == Ok(Field(vals[..j + 1], o + |Laid(enc, ws[..j + 1])|)))
  }

  /** Every round of the loop over ws appends what the step reads. */
  ghost predicate Extends<W, T>(b: bytes, from: (bytes, nat, nat) -> Decoded<Field<seq<T>>>, at: (bytes, nat) -> Decoded<Field<T>>,
                                enc: W -> bytes, ws: seq<W>, vals: seq<T>, o: nat)
  {
    forall j: nat {:trigger Round(b, from, at, enc, ws, vals, o, j)} :: j < |ws| ==> Round(b, from, at, enc, ws, vals, o, j)
  }

  /**
   * Where a counted loop's first k rounds read acc and end at e, and the
   * step reads a value at e, round k + 1 appends that value and ends where
   * the step does.
   */
  ghost predicate SnocAt<T>(b: bytes, from: (bytes, nat, nat) -> Decoded<Field<seq<T>>>, at: (bytes, nat) -> Decoded<Field<T>>,
                            o: nat, k: nat, acc: seq<T>, e: nat)
  {
    (from(b, o, k) == Ok(Field(acc, e)) && at(b, e).Ok?)
    ==> from(b, o, k + 1) == Ok(Field(acc + [at(b, e).value.value], at(b, e).value.next))
  }

  /** The loop appends what its step reads, in every round. */
  ghost predicate Grows<T(!new)>(b: bytes, from: (bytes, nat, nat) -> Decoded<Field<seq<T>>>, at: (bytes, nat) -> Decoded<Field<T>>, o: nat)
  {
    forall k: nat, acc: seq<T>, e: nat {:trigger SnocAt(b, from, at, o, k, acc, e)} :: SnocAt(b, from, at, o, k, acc, e)
  }

  /** A loop that grows by its step extends over any run of records. */
  lemma {:induction false} GrowsExtends<W, T(!new)>(b: bytes, from: (bytes, nat, nat) -> Decoded<Field<seq<T>>>,
                                              at: (bytes, nat) -> Decoded<Field<T>>, enc: W -> bytes, ws: seq<W>, vals: seq<T>, o: nat)
    requires Grows(b, from, at, o)
    ensures Extends(b, from, at, enc, ws, vals, o)
  {
    forall j: nat | j < |ws|
      ensures Round(b, from, at, enc, ws, vals, o, j)
    {
      GrowsRound(b, from, at, enc, ws, vals, o, j);
    }
  }

  /** One round of a loop that grows by its step. */
  lemma {:induction false} GrowsRound<W, T(!new)>(b: bytes, from: (bytes, nat, nat) -> Decoded<Field<seq<T>>>,
                                            at: (bytes, nat) -> Decoded<Field<T>>, enc: W -> bytes, ws: seq<W>, vals: seq<T>, o: nat, j: nat)
    requires Grows(b, from, at, o)
    ensures Round(b, from, at, enc, ws, vals, o, j)
  {
    if j < |ws| && j < |vals| {
      LaidGrown(enc, ws, j);
      assert vals[..j + 1] == vals[..j] + [vals[j]];
      assert SnocAt(b, from, at, o, j, vals[..j], o + |Laid(enc, ws[..j])|);
    }
  }

  /**
   * The snoc form of LaidCount: a counted loop that starts empty and
   * appends what its step reads, walked over a run of records the step
   * reads, reads the first j values and ends where the first j records end.
   */
  lemma {:induction false} LaidRun<W, T>(b: bytes, from: (bytes, nat, nat) -> Decoded<Field<seq<T>>>, at: (bytes, nat) -> Decoded<Field<T>>,
                                         enc: W -> bytes, ws: seq<W>, vals: seq<T>, o: nat, j: nat)
    requires j <= |ws| == |vals| && At(b, o, Laid(enc, ws)) && Finds(b, at, enc, ws, vals)
    requires from(b, o, 0) == Ok(Field([], o)) && Extends(b, from, at, enc, ws, vals, o)
    ensures from(b, o, j) == Ok(Field(vals[..j], o + |Laid(enc, ws[..j])|))
    decreases j
  {
    if j == 0 {
      assert vals[..0] == [] && ws[..0] == [];
    } else {
      LaidRun(b, from, at, enc, ws, vals, o, j - 1);
      LaidAt(b, o, enc, ws, j - 1);
      assert FoundAt(b, at, enc, ws, vals, j - 1, o + |Laid(enc, ws[..j - 1])|);
      assert Round(b, from, at, enc, ws, vals, o, j - 1);
    }
  }

  /** LaidRun over the whole run, for a loop that grows by its step. */
  lemma {:induction false} LaidRunAll<W, T(!new)>(b: bytes, from: (bytes, nat, nat) -> Decoded<Field<seq<T>>>, at: (bytes, nat) -> Decoded<Field<T>>,
                                            enc: W -> bytes, ws: seq<W>, vals: seq<T>, o: nat)
    requires |ws| == |vals| && At(b, o, Laid(enc, ws)) && Finds(b, at, enc, ws, vals)
    requires from(b, o, 0) == Ok(Field([], o)) && Grows(b, from, at, o)
    ensures from(b, o, |ws|) == Ok(Field(vals, o + |Laid(enc, ws)|))
  {
    GrowsExtends(b, from, at, enc, ws, vals, o);
    LaidRun(b, from, at, enc, ws, vals, o, |ws|);
    assert ws[..|ws|] == ws && vals[..|vals|] == vals;
  }

}
