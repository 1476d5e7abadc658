/** 2-bit nucleotide packing and the edge-record format of the paired
    assembler (paireddebruijn/graphio.cpp). Files are modelled as the list
    of whitespace-separated tokens `fprintf` writes and `fscanf` reads: a
    number or a word. */
module GraphIO {
  import opened Wrappers
  import opened Nucleotide

  // ---------------------------------------------------------------------
  // Packing

  /** Lines 9-22: A, C, G, T to 0..3, anything else to -1. */
  function CodeNucleotide(c: char): (r: int)
    ensures -1 <= r < 4
    ensures r == -1 <==> FromChar(c).None?
    ensures r != -1 ==> r == Code(FromChar(c).value)
  {
    if c == 'A' then 0
    else if c == 'C' then 1
    else if c == 'G' then 2
    else if c == 'T' then 3
    else -1
  }

  /** `nucl`, the inverse of CodeNucleotide on 0..3. */
  function NuclChar(x: int): (c: char)
    requires 0 <= x < 4
    ensures CodeNucleotide(c) == x
  {
    ToChar(FromCode(x))
  }

  /** Lines 24-28: the first `readLength` characters coded into `code`;
      the rest of the buffer is left as it was. */
  method CodeRead(read: string, code: seq<int>, readLength: nat) returns (r: seq<int>)
    requires readLength <= |read| && readLength <= |code|
    ensures |r| == |code|
    ensures forall i | 0 <= i < readLength :: r[i] == CodeNucleotide(read[i])
    ensures r[readLength..] == code[readLength..]
  {
    r := code;
    for i := 0 to readLength
      invariant |r| == |code|
      invariant forall j | 0 <= j < i :: r[j] == CodeNucleotide(read[j])
      invariant r[i..] == code[i..]
    {
      r := r[i := CodeNucleotide(read[i])];
    }
  }

  function Pow4(n: nat): (r: nat)
    ensures r >= 1
  {
    if n == 0 then 1 else 4 * Pow4(n - 1)
  }

  /** The big-endian base-4 value of a list of digits: the first digit is
      the most significant. */
  function BigEndian(ds: seq<int>): int
  {
    if |ds| == 0 then 0 else ds[0] * Pow4(|ds| - 1) + BigEndian(ds[1..])
  }

  /** Appending a digit shifts the value left by one place. */
  lemma {:induction false} BigEndianSnoc(ds: seq<int>, d: int)
    ensures BigEndian(ds + [d]) == 4 * BigEndian(ds) + d
  {
    if |ds| > 0 {
      assert (ds + [d])[1..] == ds[1..] + [d];
      BigEndianSnoc(ds[1..], d);
    }
  }

  /** Lines 30-37: `res = (res << 2) + read[shift + i]` for each of the
      `length` codes; the value is the big-endian reading of those codes. */
  method ExtractMer(code: seq<int>, shift: nat, length: nat) returns (res: int)
    requires shift + length <= |code|
    ensures res == BigEndian(code[shift..shift + length])
  {
    res := 0;
    for i := 0 to length
      invariant res == BigEndian(code[shift..shift + i])
    {
      BigEndianSnoc(code[shift..shift + i], code[shift + i]);
      assert code[shift..shift + i + 1] == code[shift..shift + i] + [code[shift + i]];
      res := res * 4 + code[shift + i];
    }
  }

  /** Codes all in 0..3 give a value in [0, 4^length). */
  lemma {:induction false} BigEndianBound(ds: seq<int>)
    requires forall i | 0 <= i < |ds| :: 0 <= ds[i] < 4
    ensures 0 <= BigEndian(ds) < Pow4(|ds|)
  {
    if |ds| > 0 {
      var tail := ds[1..];
      assert forall i | 0 <= i < |tail| :: tail[i] == ds[i + 1];
      BigEndianBound(tail);
      DigitTimes(ds[0], Pow4(|ds| - 1));
    }
  }

  /** A digit below 4 times a place value p lies in [0, 3p]. */
  lemma DigitTimes(x: int, p: int)
    requires 0 <= x < 4 && p >= 0
    ensures 0 <= x * p <= 3 * p
  {
    if x == 0 {
    } else if x == 1 {
    } else if x == 2 {
    } else {
    }
  }

  /** Lines 39-50: `l` characters; character l-1-i is `nucl` of the i-th
      2-bit group of `a`, taken by `a & 3` and `a >>= 2`. On a
      two's-complement value these are the remainder and quotient of
      floored division by 4, which is what `%` and `/` are here. */
  function Decompress(a: int, l: nat): (r: string)
    ensures |r| == l
    decreases l
  {
    if l == 0 then "" else Decompress(a / 4, l - 1) + [NuclChar(a % 4)]
  }

  /** Character l-1-i comes from the i-th group. */
  lemma {:induction false} DecompressAt(a: int, l: nat, i: nat)
    requires i < l
    ensures Decompress(a, l)[l - 1 - i] == NuclChar((a / Pow4(i)) % 4)
    decreases i
  {
    if i > 0 {
      DecompressAt(a / 4, l - 1, i - 1);
      DivDiv(a, Pow4(i - 1));
    }
  }

  /** Quotient and remainder are the only such pair. */
  lemma DivUnique(a: int, d: int, x: int, y: int)
    requires d >= 1 && a == d * x + y && 0 <= y < d
    ensures a / d == x && a % d == y
  {
    var z := x - a / d;
    assert d * z == a % d - y by {
      assert a == d * (a / d) + a % d;
      assert d * x - d * (a / d) == d * z;
    }
    assert z >= 1 ==> d * z >= d * 1;
    assert z <= -1 ==> d * z <= d * -1;
  }

  /** Splitting `a` by 4m: a = 4(mq + r/4) + r%4 with q, r the quotient
      and remainder of the division by 4m. */
  lemma SplitBy4m(a: int, m: int)
    requires m >= 1
    ensures a / 4 == m * (a / (4 * m)) + (a % (4 * m)) / 4
    ensures a % 4 == (a % (4 * m)) % 4
    ensures 0 <= (a % (4 * m)) / 4 < m
  {
    var q, r := a / (4 * m), a % (4 * m);
    assert a == (4 * m) * q + r;
    assert r == 4 * (r / 4) + r % 4;
    assert (4 * m) * q == 4 * (m * q);
    assert a == 4 * (m * q + r / 4) + r % 4;
    DivUnique(a, 4, m * q + r / 4, r % 4);
  }

  lemma DivDiv(a: int, m: nat)
    requires m >= 1
    ensures a / 4 / m == a / (4 * m)
  {
    SplitBy4m(a, m);
    DivUnique(a / 4, m, a / (4 * m), (a % (4 * m)) / 4);
  }

  /** Only the low 2l bits matter. */
  lemma {:induction false} DecompressLowBits(a: int, l: nat)
    ensures Decompress(a, l) == Decompress(a % Pow4(l), l)
    decreases l
  {
    if l > 0 {
      var m := Pow4(l - 1);
      var b := a % (4 * m);
      DecompressLowBits(a / 4, l - 1);
      DecompressLowBits(b / 4, l - 1);
      ModDiv(a, m);
      assert b % 4 == a % 4;
    }
  }

  /** Taking the low 2l bits and then dropping two is taking the low
      2(l-1) bits of the value shifted by two. */
  lemma ModDiv(a: int, m: nat)
    requires m >= 1
    ensures (a % (4 * m)) / 4 % m == (a / 4) % m
    ensures (a % (4 * m)) % 4 == a % 4
  {
    var r4 := (a % (4 * m)) / 4;
    SplitBy4m(a, m);
    DivUnique(a / 4, m, a / (4 * m), r4);
    DivUnique(r4, m, 0, r4);
  }

  /** Unpacking a packed list of 0..3 codes gives the letters back. */
  lemma {:induction false} DecompressBigEndian(ds: seq<int>)
    requires forall i | 0 <= i < |ds| :: 0 <= ds[i] < 4
    ensures |Decompress(BigEndian(ds), |ds|)| == |ds|
    ensures forall i | 0 <= i < |ds| :: Decompress(BigEndian(ds), |ds|)[i] == NuclChar(ds[i])
  {
    if |ds| > 0 {
      var init, last := ds[..|ds| - 1], ds[|ds| - 1];
      assert ds == init + [last];
      BigEndianSnoc(init, last);
      DecompressBigEndian(init);
      var v := BigEndian(init);
      assert (4 * v + last) / 4 == v && (4 * v + last) % 4 == last;
    }
  }

  /** The round trip: for a read of A, C, G, T, coding it, packing l codes
      from `shift` and unpacking l characters gives read[shift..shift+l). */
  method PackRoundTrip(read: string, code: seq<int>, readLength: nat, shift: nat, l: nat)
    returns (mer: int, back: string)
    requires readLength <= |read| && readLength <= |code| && shift + l <= readLength
    requires forall i | 0 <= i < readLength :: read[i] in "ACGT"
    ensures 0 <= mer < Pow4(l)
    ensures back == read[shift..shift + l]
  {
    var coded := CodeRead(read, code, readLength);
    mer := ExtractMer(coded, shift, l);
    var ds := coded[shift..shift + l];
    assert forall i | 0 <= i < l :: ds[i] == CodeNucleotide(read[shift + i]);
    BigEndianBound(ds);
    DecompressBigEndian(ds);
    back := Decompress(mer, l);
    forall i | 0 <= i < l
      ensures back[i] == read[shift + i]
    {
      var c := read[shift + i];
      assert c in "ACGT";
      assert NuclChar(CodeNucleotide(c)) == c;
    }
  }

  // ---------------------------------------------------------------------
  // The record format

  datatype Token = Num(n: int) | Word(w: string)

  /** An edge of the paired graph: its id, end vertices, length, and the
      upper and lower sequences. */
  datatype Edge = Edge(id: int, from: int, to: int, length: int, upper: seq<Nucl>, lower: seq<Nucl>)

  /** Lines 169-172: the size, then the letters. The letters of an empty
      sequence make an empty line, which holds no token. */
  function OutputSequence(s: seq<Nucl>): (r: seq<Token>)
    ensures |r| >= 1 && r[0] == Num(|s|)
    ensures |s| == 0 ==> |r| == 1
    ensures |s| > 0 ==> |r| == 2 && r[1].Word? && Parse(r[1].w) == Some(s)
  {
    if |s| == 0 then [Num(0)]
    else
      ParseRender(s);
      [Num(|s|), Word(Render(s))]
  }

  /** What the format carries back: an edge whose two sequences are not
      empty. */
  predicate Printable(e: Edge)
  {
    |e.upper| > 0 && |e.lower| > 0
  }

  /** Lines 174-181: id, from, to, length, upper, lower. */
  function OutputEdge(e: Edge): (r: seq<Token>)
    ensures |r| >= 6 && r[..4] == [Num(e.id), Num(e.from), Num(e.to), Num(e.length)]
    ensures r[4] == Num(|e.upper|)
    ensures |r| == 8 <==> Printable(e)
  {
    [Num(e.id), Num(e.from), Num(e.to), Num(e.length)] + OutputSequence(e.upper) + OutputSequence(e.lower)
  }

  /** Lines 218-220: one number. */
  function ReadInt(ts: seq<Token>): (r: Result<(int, seq<Token>)>)
    ensures r.Ok? <==> |ts| > 0 && ts[0].Num?
    ensures r.Ok? ==> ts[0] == Num(r.value.0) && |r.value.1| == |ts| - 1
  {
    if |ts| > 0 && ts[0].Num? then Ok((ts[0].n, ts[1..])) else Err("expected a number")
  }

  /** Lines 222-228: a length, then a word read as a sequence. The length
      only sizes the buffer; the sequence is whatever the word holds. A
      number's digits are no nucleotide letters, so a number in the word's
      place is an error. */
  function ReadSequence(ts: seq<Token>): (r: Result<(seq<Nucl>, seq<Token>)>)
    ensures r.Ok? <==> |ts| >= 2 && ts[0].Num? && ts[1].Word? && Parse(ts[1].w).Some?
    ensures r.Ok? ==> Parse(ts[1].w) == Some(r.value.0) && |r.value.1| == |ts| - 2
  {
    match ReadInt(ts)
    case Err(e) => Err(e)
    case Ok((_, rest)) =>
      if |rest| > 0 && rest[0].Word? then
        match Parse(rest[0].w)
        case None => Err("not a nucleotide string")
        case Some(s) => Ok((s, rest[1..]))
      else Err("expected a word")
  }

  /** Lines 230-240: the fields in the order OutputEdge writes them. */
  function ReadEdge(ts: seq<Token>): (r: Result<(Edge, seq<Token>)>)
    ensures r.Ok? ==> |r.value.1| == |ts| - 8 && ts[0] == Num(r.value.0.id)
  {
    match ReadInt(ts)
    case Err(e) => Err(e)
    case Ok((id, ts1)) =>
      match ReadInt(ts1)
      case Err(e) => Err(e)
      case Ok((from, ts2)) =>
        match ReadInt(ts2)
        case Err(e) => Err(e)
        case Ok((to, ts3)) =>
          match ReadInt(ts3)
          case Err(e) => Err(e)
          case Ok((len, ts4)) =>
            match ReadSequence(ts4)
            case Err(e) => Err(e)
            case Ok((up, ts5)) =>
              match ReadSequence(ts5)
              case Err(e) => Err(e)
              case Ok((low, ts6)) => Ok((Edge(id, from, to, len, up, low), ts6))
  }

  lemma ReadSequenceOutput(s: seq<Nucl>, rest: seq<Token>)
    requires |s| > 0
    ensures ReadSequence(OutputSequence(s) + rest) == Ok((s, rest))
  {
    ParseRender(s);
    assert OutputSequence(s) == [Num(|s|), Word(Render(s))];
    ReadSequenceCons(|s|, Render(s), rest);
  }

  /** A length and a readable word are read as the word's sequence. */
  lemma ReadSequenceCons(n: int, w: string, rest: seq<Token>)
    requires Parse(w).Some?
    ensures ReadSequence([Num(n), Word(w)] + rest) == Ok((Parse(w).value, rest))
  {
    var ts := [Num(n), Word(w)] + rest;
    assert ts[1..] == [Word(w)] + rest;
    assert ts[1..][1..] == rest;
  }

  /** Reading back a written edge gives the same fields and leaves what
      follows untouched. */
  lemma ReadEdgeOutput(e: Edge, rest: seq<Token>)
    requires Printable(e)
    ensures ReadEdge(OutputEdge(e) + rest) == Ok((e, rest))
  {
    var t6 := OutputSequence(e.lower) + rest;
    var t5 := OutputSequence(e.upper) + t6;
    var t4 := [Num(e.length)] + t5;
    var t3 := [Num(e.to)] + t4;
    var t2 := [Num(e.from)] + t3;
    assert OutputEdge(e) + rest == [Num(e.id)] + t2;
    ReadIntCons(e.id, t2);
    ReadIntCons(e.from, t3);
    ReadIntCons(e.to, t4);
    ReadIntCons(e.length, t5);
    ReadSequenceOutput(e.upper, t6);
    ReadSequenceOutput(e.lower, rest);
  }

  /** An empty sequence is not read back: its line holds only the size,
      so the reader takes the next token as the word, or fails. */
  lemma EmptySequenceLost(rest: seq<Token>)
    ensures ReadSequence(OutputSequence([]) + rest) != Ok(([], rest))
  {
    var r := ReadSequence(OutputSequence([]) + rest);
    if r.Ok? {
      assert |r.value.1| == |rest| - 1;
    }
  }

  /** An edge with an empty sequence is written with fewer than the eight
      tokens every successful read of an edge takes, so it does not come
      back. */
  lemma EmptyEdgeLost(e: Edge, rest: seq<Token>)
    requires !Printable(e)
    ensures ReadEdge(OutputEdge(e) + rest) != Ok((e, rest))
  {
    var r := ReadEdge(OutputEdge(e) + rest);
    if r.Ok? {
      assert |r.value.1| < |rest|;
    }
  }

  /** A number in front is read and dropped. */
  lemma ReadIntCons(n: int, rest: seq<Token>)
    ensures ReadInt([Num(n)] + rest) == Ok((n, rest))
  {
    assert ([Num(n)] + rest)[1..] == rest;
  }

  /** Lines 183-189: the size of the map, then key and edge per entry, in
      the map's iteration order `keys`, which lists every key once. */
  function OutputLongEdgesMap(edges: map<int, Edge>, keys: seq<int>): (r: seq<Token>)
    requires DistinctKeys(keys)
    requires forall i | 0 <= i < |keys| :: keys[i] in edges
    requires forall k | k in edges :: k in keys
    ensures |r| > 0 && r[0] == Num(|keys|)
  {
    EnumerationCount(edges, keys);
    [Num(|edges|)] + Entries(edges, keys)
  }

  /** A repeat-free list of keys has as many elements as it has members. */
  lemma {:induction false} DistinctCount(keys: seq<int>)
    requires DistinctKeys(keys)
    ensures |set k | k in keys| == |keys|
  {
    if |keys| > 0 {
      KeysTail(keys);
      DistinctCount(keys[1..]);
      assert (set k | k in keys) == (set k | k in keys[1..]) + {keys[0]};
    }
  }

  /** An enumeration of a map's keys, each listed once, is as long as the
      map is large. */
  lemma EnumerationCount(edges: map<int, Edge>, keys: seq<int>)
    requires DistinctKeys(keys)
    requires forall i | 0 <= i < |keys| :: keys[i] in edges
    requires forall k | k in edges :: k in keys
    ensures |keys| == |edges|
  {
    DistinctCount(keys);
    forall k
      ensures k in (set k | k in keys) <==> k in edges.Keys
    {
      if k in keys {
        var i :| 0 <= i < |keys| && keys[i] == k;
      }
    }
    assert (set k | k in keys) == edges.Keys;
  }

  function Entries(edges: map<int, Edge>, keys: seq<int>): seq<Token>
    requires forall i | 0 <= i < |keys| :: keys[i] in edges
  {
    if |keys| == 0 then []
    else
      [Num(keys[0])] + OutputEdge(edges[keys[0]]) + Entries(edges, keys[1..])
  }

  /** Lines 245-251: `count` entries, each added with `insert`, which keeps
      an entry already under the same key. */
  function ReadEntries(ts: seq<Token>, count: nat, into: map<int, Edge>): (r: Result<(map<int, Edge>, seq<Token>)>)
    ensures r.Ok? ==> |r.value.1| == |ts| - 9 * count
    ensures r.Ok? ==> forall k | k in into :: k in r.value.0 && r.value.0[k] == into[k]
  {
    if count == 0 then Ok((into, ts))
    else
      match ReadInt(ts)
      case Err(e) => Err(e)
      case Ok((id, ts1)) =>
        match ReadEdge(ts1)
        case Err(e) => Err(e)
        case Ok((edge, ts2)) =>
          ReadEntries(ts2, count - 1, if id in into then into else into[id := edge])
  }

  /** Lines 242-252: the count, then the entries; a negative count reads
      nothing more. */
  function ReadLongEdgesMap(ts: seq<Token>, into: map<int, Edge>): (r: Result<(map<int, Edge>, seq<Token>)>)
    ensures r.Ok? ==> |ts| > 0 && ts[0].Num?
    ensures |ts| > 0 && ts[0].Num? && ts[0].n <= 0 ==> r == Ok((into, ts[1..]))
    ensures r.Ok? ==> forall k | k in into :: k in r.value.0 && r.value.0[k] == into[k]
  {
    match ReadInt(ts)
    case Err(e) => Err(e)
    case Ok((size, ts1)) => ReadEntries(ts1, if size < 0 then 0 else size, into)
  }

  ghost predicate DistinctKeys(keys: seq<int>)
  {
    forall i, j | 0 <= i < j < |keys| :: keys[i] != keys[j]
  }

  /** One entry read: its key, then its edge. */
  lemma EntryStep(ts: seq<Token>, count: nat, into: map<int, Edge>, e: Edge, after: seq<Token>)
    requires count > 0 && |ts| > 0 && ts[0].Num?
    requires ReadEdge(ts[1..]) == Ok((e, after))
    ensures var id := ts[0].n;
            ReadEntries(ts, count, into)
              == ReadEntries(after, count - 1, if id in into then into else into[id := e])
  {
  }

  /** Dropping the first of distinct keys. */
  lemma KeysTail(keys: seq<int>)
    requires |keys| > 0 && DistinctKeys(keys)
    ensures DistinctKeys(keys[1..]) && keys[0] !in keys[1..]
    ensures forall k :: k in keys <==> k == keys[0] || k in keys[1..]
  {
    var keys' := keys[1..];
    assert forall i | 0 <= i < |keys'| :: keys'[i] == keys[i + 1];
    forall k | k in keys && k != keys[0]
      ensures k in keys'
    {
      var i :| 0 <= i < |keys| && keys[i] == k;
      assert keys'[i - 1] == k;
    }
  }

  /** The map after the remaining entries, seen from before the first one
      was inserted. */
  lemma InsertedEntry(m: map<int, Edge>, into: map<int, Edge>, k0: int, e: Edge,
                      keys: seq<int>, keys': seq<int>, edges: map<int, Edge>)
    requires k0 in edges && e == edges[k0]
    requires forall k | k in keys :: k in edges
    requires forall k :: k in keys <==> k == k0 || k in keys'
    requires Loaded(m, if k0 in into then into else into[k0 := e], keys', edges)
    ensures Loaded(m, into, keys, edges)
  {
    var into' := if k0 in into then into else into[k0 := e];
    assert forall k | k in into :: k in into' && into'[k] == into[k];
    forall k | k in keys && k !in into
      ensures m[k] == edges[k]
    {
      if k == k0 {
        assert k in into';
      } else {
        assert k in keys' && k !in into';
      }
    }
  }

  /** m is `into` with every listed key not already there added with its
      edge. */
  ghost predicate Loaded(m: map<int, Edge>, into: map<int, Edge>, keys: seq<int>, edges: map<int, Edge>)
  {
    && (forall k :: k in m <==> k in into || k in keys)
    && (forall k | k in into :: m[k] == into[k])
    && (forall k | k in keys && k !in into :: k in edges && m[k] == edges[k])
  }

  /** Reading written entries into a map adds each key not already there
      with its edge and keeps the entries already present. */
  lemma {:induction false} ReadEntriesOutput(edges: map<int, Edge>, keys: seq<int>, into: map<int, Edge>, rest: seq<Token>)
    requires forall i | 0 <= i < |keys| :: keys[i] in edges
    requires forall k | k in edges :: Printable(edges[k])
    ensures ReadEntries(Entries(edges, keys) + rest, |keys|, into).Ok?
    ensures ReadEntries(Entries(edges, keys) + rest, |keys|, into).value.1 == rest
    ensures Loaded(ReadEntries(Entries(edges, keys) + rest, |keys|, into).value.0, into, keys, edges)
    decreases |keys|, 1
  {
    if |keys| > 0 {
      EntriesOutputStep(edges, keys, into, rest);
    } else {
      assert Entries(edges, keys) + rest == rest;
      LoadedNothing(into, keys, edges);
    }
  }

  /** The first entry is read by FirstEntryRead, the rest by induction. */
  lemma {:induction false} EntriesOutputStep(edges: map<int, Edge>, keys: seq<int>, into: map<int, Edge>, rest: seq<Token>)
    requires |keys| > 0 && forall i | 0 <= i < |keys| :: keys[i] in edges
    requires forall k | k in edges :: Printable(edges[k])
    ensures ReadEntries(Entries(edges, keys) + rest, |keys|, into).Ok?
    ensures ReadEntries(Entries(edges, keys) + rest, |keys|, into).value.1 == rest
    ensures Loaded(ReadEntries(Entries(edges, keys) + rest, |keys|, into).value.0, into, keys, edges)
    decreases |keys|, 0
  {
    var k0, keys' := keys[0], keys[1..];
    var into' := if k0 in into then into else into[k0 := edges[k0]];
    assert forall i | 0 <= i < |keys'| :: keys'[i] == keys[i + 1];
    ReadEntriesOutput(edges, keys', into', rest);
    FirstEntryRead(edges, keys, into, rest);
    LoadedStep(ReadEntries(Entries(edges, keys) + rest, |keys|, into),
               ReadEntries(Entries(edges, keys') + rest, |keys'|, into'),
               into, edges, keys, rest);
  }

  /** Inserting the first listed key carries Loaded from the rest of the
      list to the whole list. */
  lemma LoadedStep(r: Result<(map<int, Edge>, seq<Token>)>, r': Result<(map<int, Edge>, seq<Token>)>,
                   into: map<int, Edge>, edges: map<int, Edge>, keys: seq<int>, rest: seq<Token>)
    requires |keys| > 0 && forall i | 0 <= i < |keys| :: keys[i] in edges
    requires r == r' && r'.Ok? && r'.value.1 == rest
    requires var k0 := keys[0];
             Loaded(r'.value.0, if k0 in into then into else into[k0 := edges[k0]], keys[1..], edges)
    ensures r.Ok? && r.value.1 == rest && Loaded(r.value.0, into, keys, edges)
  {
    var k0, keys' := keys[0], keys[1..];
    assert keys == [k0] + keys';
    InsertedEntry(r'.value.0, into, k0, edges[k0], keys, keys', edges);
  }

  /** Loading no keys changes nothing. */
  lemma LoadedNothing(into: map<int, Edge>, keys: seq<int>, edges: map<int, Edge>)
    requires |keys| == 0
    ensures Loaded(into, into, keys, edges)
  {
  }

  /** Reading the first written entry inserts it and leaves the remaining
      entries to read. */
  lemma FirstEntryRead(edges: map<int, Edge>, keys: seq<int>, into: map<int, Edge>, rest: seq<Token>)
    requires |keys| > 0 && forall i | 0 <= i < |keys| :: keys[i] in edges
    requires Printable(edges[keys[0]])
    ensures var k0 := keys[0];
            ReadEntries(Entries(edges, keys) + rest, |keys|, into)
              == ReadEntries(Entries(edges, keys[1..]) + rest, |keys| - 1,
                             if k0 in into then into else into[k0 := edges[k0]])
  {
    EntriesFirst(edges, keys, rest);
    EntryRead(keys[0], edges[keys[0]], Entries(edges, keys[1..]) + rest, |keys|, into);
  }

  /** The printed entries start with the first key and its edge. */
  lemma EntriesFirst(edges: map<int, Edge>, keys: seq<int>, rest: seq<Token>)
    requires |keys| > 0 && forall i | 0 <= i < |keys| :: keys[i] in edges
    ensures Entries(edges, keys) + rest
         == [Num(keys[0])] + (OutputEdge(edges[keys[0]]) + (Entries(edges, keys[1..]) + rest))
  {
  }

  /** A printed key and edge are read as one inserted entry. */
  lemma EntryRead(k0: int, e: Edge, tail: seq<Token>, count: nat, into: map<int, Edge>)
    requires count > 0 && Printable(e)
    ensures ReadEntries([Num(k0)] + (OutputEdge(e) + tail), count, into)
         == ReadEntries(tail, count - 1, if k0 in into then into else into[k0 := e])
  {
    var ts := [Num(k0)] + (OutputEdge(e) + tail);
    ReadEdgeOutput(e, tail);
    assert ts[1..] == OutputEdge(e) + tail;
    EntryStep(ts, count, into, e, tail);
  }

  /** Writing a map, with each key listed once, and reading it into an
      empty map gives the same map back. */
  lemma LongEdgesMapRoundTrip(edges: map<int, Edge>, keys: seq<int>, rest: seq<Token>)
    requires DistinctKeys(keys)
    requires forall i | 0 <= i < |keys| :: keys[i] in edges
    requires forall k | k in edges :: k in keys
    requires forall k | k in edges :: Printable(edges[k])
    ensures ReadLongEdgesMap(OutputLongEdgesMap(edges, keys) + rest, map[]) == Ok((edges, rest))
  {
    EnumerationCount(edges, keys);
    var body := Entries(edges, keys) + rest;
    assert OutputLongEdgesMap(edges, keys) + rest == [Num(|keys|)] + body;
    ReadIntCons(|keys|, body);
    ReadEntriesOutput(edges, keys, map[], rest);
    LoadedAll(ReadEntries(body, |keys|, map[]).value.0, keys, edges);
  }

  /** Loading every key of a map into an empty one gives the map. */
  lemma LoadedAll(m: map<int, Edge>, keys: seq<int>, edges: map<int, Edge>)
    requires Loaded(m, map[], keys, edges)
    requires forall k | k in edges :: k in keys
    ensures m == edges
  {
    assert forall k :: k in m <==> k in edges;
    forall k | k in m
      ensures m[k] == edges[k]
    {
      assert k in keys;
    }
  }
}
