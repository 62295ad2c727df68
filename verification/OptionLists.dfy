/** Option strings as QEMU splits them: at commas, two in a row standing for one. */
module OptionLists {
  import opened Text

  function Prepend(c: char, pieces: seq<string>): seq<string>
    requires pieces != []
  {
    [[c] + pieces[0]] + pieces[1..]
  }

  /** The pieces of an option string; a comma at its very end is dropped. */
  function SplitList(s: string): (r: seq<string>)
    ensures r != []
    decreases |s|
  {
    if s == "" || s == "," then [""]
    else if s[0] == ',' && s[1] == ',' then Prepend(',', SplitList(s[2..]))
    else if s[0] == ',' then [""] + SplitList(s[1..])
    else Prepend(s[0], SplitList(s[1..]))
  }

  /** Comma-free pieces, none of them empty, survive joining and splitting. */
  lemma {:induction false} ListSplitsBack(parts: seq<string>)
    requires parts != [] && forall p :: p in parts ==> ',' !in p && p != ""
    ensures SplitList(Join(parts, ',')) == parts
    decreases |parts|
  {
    if |parts| == 1 {
      OnePiece(parts[0]);
    } else {
      ListSplitsBack(parts[1..]);
      JoinStartsPlain(parts[1..]);
      FirstPiece(parts[0], Join(parts[1..], ','));
      assert parts == [parts[0]] + parts[1..];
    }
  }

  lemma {:induction false} OnePiece(p: string)
    requires ',' !in p
    ensures SplitList(p) == [p]
  {
    if p != "" {
      OnePiece(p[1..]);
      assert [p[0]] + p[1..] == p;
    }
  }

  lemma JoinStartsPlain(parts: seq<string>)
    requires parts != [] && forall p :: p in parts ==> ',' !in p && p != ""
    ensures var s := Join(parts, ','); s != "" && s[0] != ','
  {
    assert parts[0] in parts;
    assert parts[0] != "" && ',' !in parts[0];
    assert parts[0][0] in parts[0];
  }

  lemma {:induction false} FirstPiece(p: string, rest: string)
    requires ',' !in p && rest != "" && rest[0] != ','
    ensures SplitList(p + [','] + rest) == [p] + SplitList(rest)
  {
    var s := p + [','] + rest;
    if p == "" {
      assert s[1..] == rest && s[0] == ',' && s[1] == rest[0];
    } else {
      FirstPiece(p[1..], rest);
      assert s[1..] == p[1..] + [','] + rest && s[0] == p[0] && [p[0]] + p[1..] == p;
    }
  }

  // ---- Counting commas --------------------------------------------------------

  function Commas(s: string): nat {
    if s == "" then 0 else (if s[0] == ',' then 1 else 0) + Commas(s[1..])
  }

  function Total(parts: seq<string>): nat {
    if parts == [] then 0 else Commas(parts[0]) + Total(parts[1..])
  }

  lemma {:induction false} CommasAppend(a: string, b: string)
    ensures Commas(a + b) == Commas(a) + Commas(b)
  {
    if a == "" {
      assert a + b == b;
    } else {
      CommasAppend(a[1..], b);
      assert (a + b)[1..] == a[1..] + b;
    }
  }

  lemma {:induction false} CommasOfJoin(parts: seq<string>)
    requires parts != []
    ensures Commas(Join(parts, ',')) == Total(parts) + |parts| - 1
    decreases |parts|
  {
    if |parts| == 1 {
      assert parts[1..] == [];
    } else {
      CommasOfJoin(parts[1..]);
      CommasAppend(parts[0] + [','], Join(parts[1..], ','));
      CommasAppend(parts[0], [',']);
    }
  }

  lemma PrependCounts(c: char, pieces: seq<string>)
    requires pieces != []
    ensures Total(Prepend(c, pieces)) == Total(pieces) + (if c == ',' then 1 else 0) && |Prepend(c, pieces)| == |pieces|
  {
    assert Prepend(c, pieces)[1..] == pieces[1..] && ([c] + pieces[0])[1..] == pieces[0];
  }

  /** Splitting uses up two commas for each that is left in a piece, and one between pieces. */
  lemma {:induction false} SplitCounts(s: string)
    ensures Commas(s) >= 2 * Total(SplitList(s)) + |SplitList(s)| - 1
    decreases |s|
  {
    if s == "" || s == "," {
      assert [""][1..] == [];
    } else if s[0] == ',' && s[1] == ',' {
      SplitCounts(s[2..]);
      assert s[1..][1..] == s[2..];
      PrependCounts(',', SplitList(s[2..]));
    } else if s[0] == ',' {
      SplitCounts(s[1..]);
      assert ([""] + SplitList(s[1..]))[1..] == SplitList(s[1..]);
    } else {
      SplitCounts(s[1..]);
      PrependCounts(s[0], SplitList(s[1..]));
    }
  }

  lemma {:induction false} NoCommas(s: string)
    ensures Commas(s) == 0 <==> ',' !in s
  {
    if s != "" {
      NoCommas(s[1..]);
      assert s == [s[0]] + s[1..];
    }
  }

  lemma {:induction false} NoneAtAll(parts: seq<string>)
    ensures Total(parts) == 0 <==> forall p :: p in parts ==> ',' !in p
  {
    if parts != [] {
      NoneAtAll(parts[1..]);
      NoCommas(parts[0]);
      assert parts == [parts[0]] + parts[1..];
    }
  }

  /** Pieces with as many commas as the parts they were joined from have none. */
  lemma SameCommasMeansNone(parts: seq<string>)
    requires parts != [] && |SplitList(Join(parts, ','))| == |parts| && Total(SplitList(Join(parts, ','))) == Total(parts)
    ensures forall p :: p in parts ==> ',' !in p
  {
    CommasOfJoin(parts);
    SplitCounts(Join(parts, ','));
    NoneAtAll(parts);
  }
}
