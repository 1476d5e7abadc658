/** The four-letter nucleotide alphabet, its pairing, reverse complementation
    (the `!` operator of a Sequence) and the two character codes the assembler
    uses: the letters A, C, G, T and the 2-bit codes 0..3. */
module Nucleotide {
  import opened Wrappers

  datatype Nucl = A | C | G | T

  /** Watson-Crick pairing. */
  function Complement(n: Nucl): Nucl
  {
    match n
    case A => T
    case C => G
    case G => C
    case T => A
  }

  /** Reverse complement: symbol i of the result pairs with symbol
      |s| - 1 - i of the input. */
  function RevComp(s: seq<Nucl>): (r: seq<Nucl>)
    ensures |r| == |s|
  {
    seq(|s|, i requires 0 <= i < |s| => Complement(s[|s| - 1 - i]))
  }

  lemma RevCompAt(s: seq<Nucl>, i: int)
    requires 0 <= i < |s|
    ensures RevComp(s)[i] == Complement(s[|s| - 1 - i])
  {
  }

  /** Reverse complementation is an involution. */
  lemma RevCompInvolution(s: seq<Nucl>)
    ensures RevComp(RevComp(s)) == s
  {
    var rs := RevComp(s);
    var r := RevComp(rs);
    forall i | 0 <= i < |s|
      ensures r[i] == s[i]
    {
      RevCompAt(rs, i);
      RevCompAt(s, |s| - 1 - i);
      assert r[i] == Complement(rs[|s| - 1 - i]);
    }
  }

  /** Reverse complementation turns a slice into the mirrored slice. */
  lemma {:induction false} RevCompSlice(s: seq<Nucl>, lo: int, hi: int)
    requires 0 <= lo <= hi <= |s|
    ensures RevComp(s[lo..hi]) == RevComp(s)[|s| - hi..|s| - lo]
  {
    var w := s[lo..hi];
    var x := RevComp(w);
    var rs := RevComp(s);
    var y := rs[|s| - hi..|s| - lo];
    assert |x| == |y|;
    forall i | 0 <= i < hi - lo
      ensures x[i] == y[i]
    {
      RevCompAt(w, i);
      RevCompAt(s, |s| - hi + i);
      assert x[i] == Complement(w[hi - lo - 1 - i]);
      assert w[hi - lo - 1 - i] == s[hi - 1 - i];
      assert y[i] == rs[|s| - hi + i];
    }
  }

  /** The letter a nucleotide is printed as. */
  function ToChar(n: Nucl): char
  {
    match n
    case A => 'A'
    case C => 'C'
    case G => 'G'
    case T => 'T'
  }

  /** The nucleotide a letter stands for, if it is one of A, C, G, T. */
  function FromChar(c: char): (r: Option<Nucl>)
    ensures r.Some? <==> c in "ACGT"
    ensures r.Some? ==> ToChar(r.value) == c
  {
    if c == 'A' then Some(A)
    else if c == 'C' then Some(C)
    else if c == 'G' then Some(G)
    else if c == 'T' then Some(T)
    else None
  }

  /** The 2-bit code of a nucleotide, in slot order A, C, G, T. */
  function Code(n: Nucl): (r: int)
    ensures 0 <= r < 4
  {
    match n
    case A => 0
    case C => 1
    case G => 2
    case T => 3
  }

  /** The nucleotide with a given 2-bit code. */
  function FromCode(x: int): (r: Nucl)
    requires 0 <= x < 4
    ensures Code(r) == x
  {
    if x == 0 then A else if x == 1 then C else if x == 2 then G else T
  }

  /** Printing a whole sequence letter by letter. */
  function Render(s: seq<Nucl>): (r: string)
    ensures |r| == |s|
  {
    if |s| == 0 then "" else Render(s[..|s| - 1]) + [ToChar(s[|s| - 1])]
  }

  lemma {:induction false} RenderAt(s: seq<Nucl>, i: int)
    requires 0 <= i < |s|
    ensures Render(s)[i] == ToChar(s[i])
  {
    if i < |s| - 1 {
      RenderAt(s[..|s| - 1], i);
    }
  }

  /** Reading a letter string back as a sequence; fails on the first
      character outside A, C, G, T. */
  function Parse(str: string): (r: Option<seq<Nucl>>)
    ensures r.Some? ==> |r.value| == |str|
  {
    if |str| == 0 then Some([])
    else
      var init := Parse(str[..|str| - 1]);
      var last := FromChar(str[|str| - 1]);
      if init.Some? && last.Some? then Some(init.value + [last.value]) else None
  }

  /** Parse succeeds exactly on strings over the four letters. */
  lemma {:induction false} ParseSucceeds(str: string)
    ensures Parse(str).Some? <==> forall i | 0 <= i < |str| :: str[i] in "ACGT"
  {
    if |str| > 0 {
      var init := str[..|str| - 1];
      ParseSucceeds(init);
      assert forall i | 0 <= i < |init| :: init[i] == str[i];
    }
  }

  lemma FromCharToChar(n: Nucl)
    ensures FromChar(ToChar(n)) == Some(n)
  {
  }

  /** Printing then reading gives the sequence back. */
  lemma {:induction false} ParseRender(s: seq<Nucl>)
    ensures Parse(Render(s)) == Some(s)
  {
    if |s| > 0 {
      var init := s[..|s| - 1];
      var last := s[|s| - 1];
      ParseRender(init);
      FromCharToChar(last);
      ParseSnoc(Render(init), ToChar(last));
      assert init + [last] == s;
    }
  }

  /** Reading one more character extends the parse by that letter, or
      fails. */
  lemma ParseSnoc(str: string, c: char)
    ensures Parse(str + [c])
         == if Parse(str).Some? && FromChar(c).Some?
            then Some(Parse(str).value + [FromChar(c).value]) else None
  {
    assert (str + [c])[..|str|] == str;
  }

  /** Reading then printing gives the string back. */
  lemma {:induction false} RenderParse(str: string)
    requires Parse(str).Some?
    ensures Render(Parse(str).value) == str
  {
    if |str| > 0 {
      var init := str[..|str| - 1];
      RenderParse(init);
      var p := Parse(init).value;
      var last := FromChar(str[|str| - 1]).value;
      assert Parse(str).value == p + [last];
      assert (p + [last])[..|p|] == p;
      assert init + [str[|str| - 1]] == str;
    }
  }
}
