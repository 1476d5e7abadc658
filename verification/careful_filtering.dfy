/** Longest-valid-run trimming of reads and the filtering stream built on
    it (careful_filtering_reader_wrapper.hpp). `is_nucl` and a read's
    `IsValid` live elsewhere, so both are parameters here: `ok` says which
    characters count as nucleotides, `valid` which trimmed reads the stream
    keeps. */
module CarefulFiltering {
  import opened Wrappers

  /** A single read: its name and its characters. */
  datatype SingleRead = SingleRead(name: string, text: string)

  /** The source's `size_t`: insert sizes wrap modulo 2^64. */
  const SizeModulus: int := 0x1_0000_0000_0000_0000
  type Size = x: int | 0 <= x < SizeModulus

  /** A mate pair and the insert size between them. */
  datatype PairedRead = PairedRead(first: SingleRead, second: SingleRead, insertSize: Size)

  /** The default-constructed pair: two empty mates, insert size 0. */
  const EmptyPair := PairedRead(SingleRead("", ""), SingleRead("", ""), 0)

  /** Characters s[a..b) are all nucleotides (an empty range is a run). */
  ghost predicate Run(s: string, ok: char -> bool, a: int, b: int)
  {
    0 <= a <= b <= |s| && forall j | a <= j < b :: ok(s[j])
  }

  /** (p, q) is the leftmost of the longest runs; (0, 0) when there is no
      nucleotide at all. */
  ghost predicate LeftmostLongest(s: string, ok: char -> bool, p: int, q: int)
  {
    && Run(s, ok, p, q)
    && (forall a, b | Run(s, ok, a, b) :: b - a <= q - p)
    && (forall a, b | Run(s, ok, a, b) && b - a == q - p :: p <= a)
    && (p == q ==> p == 0)
  }

  // ---------------------------------------------------------------------
  // The scan of LongestValidCoords

  /** The scan's variables: the start of the open run (`none` when no run
      is open), and the best run closed so far. */
  datatype Scan = Scan(pos: Option<nat>, bestLen: nat, bestPos: Option<nat>)

  /** The runs the scan has already accounted for: those starting before
      the open run. */
  ghost predicate Counted(st: Scan, a: int)
  {
    st.pos.None? || a < st.pos.value
  }

  /** What holds before step i of the loop at lines 19-34. */
  ghost predicate ScanInv(s: string, ok: char -> bool, i: nat, st: Scan)
  {
    && i <= |s| + 1
    && (st.pos.Some? ==>
          var p := st.pos.value;
          p < i && Run(s, ok, p, i) && (p == 0 || !ok(s[p - 1])))
    && (st.pos.None? ==> i == 0 || i == |s| + 1 || !ok(s[i - 1]))
    && (st.bestLen == 0 <==> st.bestPos.None?)
    && (st.bestPos.Some? ==>
          var bp := st.bestPos.value;
          Run(s, ok, bp, bp + st.bestLen) && Counted(st, bp) && bp + st.bestLen <= i)
    && (forall a, b | Run(s, ok, a, b) && b <= i && Counted(st, a) :: b - a <= st.bestLen)
    && (forall a, b | Run(s, ok, a, b) && b <= i && Counted(st, a) && b - a == st.bestLen && st.bestLen > 0
          :: st.bestPos.value <= a)
  }

  /** One step of the loop body: extend or open a run on a nucleotide,
      otherwise close the open run and keep it if strictly longer. */
  function Step(s: string, ok: char -> bool, i: nat, st: Scan): Scan
    requires i <= |s|
  {
    if i < |s| && ok(s[i]) then
      if st.pos.None? then st.(pos := Some(i)) else st
    else if st.pos.Some? && i - st.pos.value > st.bestLen then
      Scan(None, i - st.pos.value, st.pos)
    else
      st.(pos := None)
  }

  /** A run ending at or before the start of the open run, or an empty
      one, lies in the part already accounted for. */
  lemma RunBeforeOpen(s: string, ok: char -> bool, p: nat, a: int, b: int)
    requires p <= |s| && (p == 0 || !ok(s[p - 1]))
    requires Run(s, ok, a, b) && a < p
    ensures b < p
  {
  }

  lemma StepKeeps(s: string, ok: char -> bool, i: nat, st: Scan)
    requires i <= |s| && ScanInv(s, ok, i, st)
    ensures ScanInv(s, ok, i + 1, Step(s, ok, i, st))
  {
    var st' := Step(s, ok, i, st);
    if i < |s| && ok(s[i]) {
      forall a, b | Run(s, ok, a, b) && b <= i + 1 && Counted(st', a)
        ensures b - a <= st.bestLen && (b - a == st.bestLen && st.bestLen > 0 ==> st.bestPos.value <= a)
      {
        if st.pos.Some? {
          RunBeforeOpen(s, ok, st.pos.value, a, b);
        }
      }
    } else {
      assert forall a, b | Run(s, ok, a, b) && b <= i + 1 && a < b :: b <= i;
      if st.pos.Some? {
        var p := st.pos.value;
        forall a, b | Run(s, ok, a, b) && b <= i + 1
          ensures b - a <= st'.bestLen && (b - a == st'.bestLen && st'.bestLen > 0 ==> st'.bestPos.value <= a)
        {
          if a < p {
            RunBeforeOpen(s, ok, p, a, b);
          }
        }
      }
    }
  }

  /** The loop from step i on, then the return at lines 35-38. */
  function ScanFrom(s: string, ok: char -> bool, i: nat, st: Scan): (r: (nat, nat))
    requires ScanInv(s, ok, i, st)
    ensures LeftmostLongest(s, ok, r.0, r.1)
    decreases |s| + 1 - i
  {
    if i > |s| then
      if st.bestLen == 0 then (0, 0) else (st.bestPos.value, st.bestPos.value + st.bestLen)
    else
      StepKeeps(s, ok, i, st);
      ScanFrom(s, ok, i + 1, Step(s, ok, i, st))
  }

  /** Lines 14-39: the leftmost longest run of nucleotides. */
  function LongestValidCoords(s: string, ok: char -> bool): (r: (nat, nat))
    ensures r.0 <= r.1 <= |s|
    ensures forall j | r.0 <= j < r.1 :: ok(s[j])
    ensures forall a, b | Run(s, ok, a, b) :: b - a <= r.1 - r.0
    ensures forall a, b | Run(s, ok, a, b) && b - a == r.1 - r.0 :: r.0 <= a
    ensures r.0 == r.1 ==> r == (0, 0)
  {
    ScanFrom(s, ok, 0, Scan(None, 0, None))
  }

  /** The result is empty exactly when no character is a nucleotide. */
  lemma CoordsEmpty(s: string, ok: char -> bool)
    ensures var r := LongestValidCoords(s, ok);
            r == (0, 0) <==> forall j | 0 <= j < |s| :: !ok(s[j])
  {
    var r := LongestValidCoords(s, ok);
    assert r.0 < r.1 ==> ok(s[r.0]);
    if exists j | 0 <= j < |s| :: ok(s[j]) {
      var j :| 0 <= j < |s| && ok(s[j]);
      assert Run(s, ok, j, j + 1);
    }
  }

  /** Only one pair of coordinates is the leftmost longest run, so the
      scan computes exactly that. */
  lemma CoordsUnique(s: string, ok: char -> bool, p: int, q: int)
    requires LeftmostLongest(s, ok, p, q)
    ensures LongestValidCoords(s, ok) == (p, q)
  {
    var r := LongestValidCoords(s, ok);
    assert Run(s, ok, r.0, r.1);
    assert q - p == r.1 - r.0;
  }

  // ---------------------------------------------------------------------
  // Trimming

  /** `Substr(from, to)` of a read: the name stays, the text is cut. */
  function Substr(r: SingleRead, from: nat, to: nat): SingleRead
    requires from <= to <= |r.text|
  {
    SingleRead(r.name, r.text[from..to])
  }

  /** Lines 41-44: a read cut down to its longest valid run. */
  function LongestValid(r: SingleRead, ok: char -> bool): (t: SingleRead)
    ensures t.name == r.name
    ensures forall j | 0 <= j < |t.text| :: ok(t.text[j])
    ensures forall a, b | Run(r.text, ok, a, b) :: b - a <= |t.text|
    ensures exists p, q | LeftmostLongest(r.text, ok, p, q) :: t.text == r.text[p..q]
  {
    var c := LongestValidCoords(r.text, ok);
    assert LeftmostLongest(r.text, ok, c.0, c.1);
    Substr(r, c.0, c.1)
  }

  /** The wrapped-around value of the insert-size expression at line 57,
      `insert_size - c1.first - second.size() + c2.second` on `size_t`. */
  function TrimmedInsert(insertSize: Size, cut1: nat, len2: nat, end2: nat): (ins: Size)
    requires end2 <= len2
    ensures insertSize - cut1 - len2 + end2 >= 0 ==> ins == insertSize - cut1 - len2 + end2
  {
    (insertSize - cut1 - len2 + end2) % SizeModulus
  }

  /** Lines 46-60: both mates trimmed; a pair with an empty mate becomes
      the empty pair, a pair with no invalid character is kept as is. */
  function LongestValidPair(r: PairedRead, ok: char -> bool): (t: PairedRead)
    ensures t == EmptyPair
            || (&& |t.first.text| > 0 && |t.second.text| > 0
                && AllNucl(t.first.text, ok) && AllNucl(t.second.text, ok))
  {
    var c1 := LongestValidCoords(r.first.text, ok);
    var c2 := LongestValidCoords(r.second.text, ok);
    var len1 := c1.1 - c1.0;
    var len2 := c2.1 - c2.0;
    if len1 == 0 || len2 == 0 then EmptyPair
    else if len1 == |r.first.text| && len2 == |r.second.text| then r
    else PairedRead(Substr(r.first, c1.0, c1.1), Substr(r.second, c2.0, c2.1),
                    TrimmedInsert(r.insertSize, c1.0, |r.second.text|, c2.1))
  }

  ghost predicate NoNucl(s: string, ok: char -> bool)
  {
    forall j | 0 <= j < |s| :: !ok(s[j])
  }

  ghost predicate AllNucl(s: string, ok: char -> bool)
  {
    forall j | 0 <= j < |s| :: ok(s[j])
  }

  /** A mate with no nucleotide empties the pair. */
  lemma PairEmptied(r: PairedRead, ok: char -> bool)
    ensures NoNucl(r.first.text, ok) || NoNucl(r.second.text, ok)
            <==> LongestValidPair(r, ok) == EmptyPair
  {
    CoordsEmpty(r.first.text, ok);
    CoordsEmpty(r.second.text, ok);
    var c1 := LongestValidCoords(r.first.text, ok);
    var c2 := LongestValidCoords(r.second.text, ok);
    if c1.1 - c1.0 > 0 && c2.1 - c2.0 > 0 {
      assert |LongestValidPair(r, ok).first.text| > 0;
    }
  }

  /** Two non-empty mates made only of nucleotides come back unchanged. */
  lemma PairKept(r: PairedRead, ok: char -> bool)
    requires |r.first.text| > 0 && |r.second.text| > 0
    requires AllNucl(r.first.text, ok) && AllNucl(r.second.text, ok)
    ensures LongestValidPair(r, ok) == r
  {
    assert Run(r.first.text, ok, 0, |r.first.text|);
    assert Run(r.second.text, ok, 0, |r.second.text|);
  }

  /** Otherwise each mate becomes its own longest valid run, and the insert
      size loses what was cut from the front of the first mate and from the
      back of the second (modulo 2^64 when that goes below zero). */
  lemma PairTrimmed(r: PairedRead, ok: char -> bool)
    requires !NoNucl(r.first.text, ok) && !NoNucl(r.second.text, ok)
    requires !(AllNucl(r.first.text, ok) && AllNucl(r.second.text, ok))
    ensures var t := LongestValidPair(r, ok);
            var c1 := LongestValidCoords(r.first.text, ok);
            var c2 := LongestValidCoords(r.second.text, ok);
            && t.first == LongestValid(r.first, ok)
            && t.second == LongestValid(r.second, ok)
            && (t.insertSize + c1.0 + (|r.second.text| - c2.1) - r.insertSize) % SizeModulus == 0
  {
    CoordsEmpty(r.first.text, ok);
    CoordsEmpty(r.second.text, ok);
    var c1 := LongestValidCoords(r.first.text, ok);
    var c2 := LongestValidCoords(r.second.text, ok);
    assert c1.1 - c1.0 == |r.first.text| ==> AllNucl(r.first.text, ok);
    assert c2.1 - c2.0 == |r.second.text| ==> AllNucl(r.second.text, ok);
    var x := r.insertSize - c1.0 - |r.second.text| + c2.1;
    var ins := TrimmedInsert(r.insertSize, c1.0, |r.second.text|, c2.1);
    assert ins == x % SizeModulus;
    assert ins + c1.0 + (|r.second.text| - c2.1) - r.insertSize == x % SizeModulus - x;
  }

  /** The shortcut at line 54 agrees with the general branch: trimming a
      fully valid pair cuts nothing and leaves the insert size. */
  lemma ShortcutAgrees(r: PairedRead, ok: char -> bool)
    requires |r.first.text| > 0 && |r.second.text| > 0
    requires AllNucl(r.first.text, ok) && AllNucl(r.second.text, ok)
    ensures var c1 := LongestValidCoords(r.first.text, ok);
            var c2 := LongestValidCoords(r.second.text, ok);
            && Substr(r.first, c1.0, c1.1) == r.first
            && Substr(r.second, c2.0, c2.1) == r.second
            && TrimmedInsert(r.insertSize, c1.0, |r.second.text|, c2.1) == r.insertSize
  {
    assert Run(r.first.text, ok, 0, |r.first.text|);
    assert Run(r.second.text, ok, 0, |r.second.text|);
  }

  // ---------------------------------------------------------------------
  // The filtering stream

  /** The reads the wrapper yields: each underlying read trimmed, kept when
      the trimmed read is valid, in input order. */
  function Kept<R>(input: seq<R>, trim: R -> R, valid: R -> bool): seq<R>
  {
    if |input| == 0 then []
    else (if valid(trim(input[0])) then [trim(input[0])] else []) + Kept(input[1..], trim, valid)
  }

  /** The wrapper's state: the underlying reads not yet consumed and the
      read it holds ready; `None` is eof. */
  datatype Wrapper<R> = Wrapper(rest: seq<R>, next: Option<R>)

  /** Lines 108-117: consume underlying reads until one trims to a valid
      read, or set eof when the underlying stream runs out. */
  function StepForward<R>(input: seq<R>, trim: R -> R, valid: R -> bool): (w: Wrapper<R>)
    ensures w.next.None? ==> w.rest == [] && Kept(input, trim, valid) == []
    ensures w.next.Some? ==> |w.rest| < |input|
                             && valid(w.next.value)
                             && Kept(input, trim, valid) == [w.next.value] + Kept(w.rest, trim, valid)
  {
    if |input| == 0 then Wrapper([], None)
    else
      var t := trim(input[0]);
      if valid(t) then Wrapper(input[1..], Some(t))
      else StepForward(input[1..], trim, valid)
  }

  /** Lines 72-75 and 95-99: opening the wrapper (or resetting it on the
      underlying input from the start) steps forward once. */
  function Open<R>(input: seq<R>, trim: R -> R, valid: R -> bool): (w: Wrapper<R>)
    ensures w.next.None? <==> Kept(input, trim, valid) == []
  {
    StepForward(input, trim, valid)
  }

  /** Lines 88-92: hand out the ready read and step forward. */
  function Next<R>(w: Wrapper<R>, trim: R -> R, valid: R -> bool): (r: (R, Wrapper<R>))
    requires w.next.Some?
    ensures r.0 == w.next.value
    ensures Kept(w.rest, trim, valid) == (if r.1.next.Some? then [r.1.next.value] else []) + Kept(r.1.rest, trim, valid)
  {
    (w.next.value, StepForward(w.rest, trim, valid))
  }

  /** Everything a wrapper hands out until eof. */
  function Drain<R>(w: Wrapper<R>, trim: R -> R, valid: R -> bool): seq<R>
    decreases |w.rest| + (if w.next.Some? then 1 else 0)
  {
    if w.next.None? then []
    else
      var (x, w') := Next(w, trim, valid);
      [x] + Drain(w', trim, valid)
  }

  /** Every wrapper StepForward builds: at eof nothing is left below. */
  ghost predicate Settled<R>(w: Wrapper<R>)
  {
    w.next.None? ==> w.rest == []
  }

  /** Reading a wrapper to eof yields the ready read and then the trimmed
      valid input still below it. */
  lemma {:induction false} DrainKept<R>(w: Wrapper<R>, trim: R -> R, valid: R -> bool)
    requires Settled(w)
    ensures Drain(w, trim, valid) == (if w.next.Some? then [w.next.value] else []) + Kept(w.rest, trim, valid)
    decreases |w.rest| + (if w.next.Some? then 1 else 0)
  {
    if w.next.Some? {
      var (x, w') := Next(w, trim, valid);
      DrainKept(w', trim, valid);
    }
  }

  /** Reading a freshly opened wrapper to eof yields exactly the trimmed
      valid input, in input order. */
  lemma OpenDrain<R>(input: seq<R>, trim: R -> R, valid: R -> bool)
    ensures Drain(Open(input, trim, valid), trim, valid) == Kept(input, trim, valid)
  {
    DrainKept(Open(input, trim, valid), trim, valid);
  }
}
