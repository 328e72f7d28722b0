/** The dataset of a6dataset.py: the point validators, an append-only table
    of fixed-dimension points, and its line-per-point rendering. */
module Datasets {
  import opened Values

  // ---------------------------------------------------------------------
  // Validators

  /** The scan of `is_point` from position `i` on: no element is a non-number. */
  function AllNumbersFrom(s: seq<Value>, i: nat): (b: bool)
    decreases |s| - i
    ensures b <==> forall j :: i <= j < |s| ==> IsNumber(s[j])
  {
    if i >= |s| then true
    else if !IsNumber(s[i]) then false
    else AllNumbersFrom(s, i + 1)
  }

  /** `is_point`: a list whose elements are all ints or floats. */
  function IsPoint(v: Value): (b: bool)
    ensures b <==> v.VList? && forall j :: 0 <= j < |v.elems| ==> IsNumber(v.elems[j])
  {
    v.VList? && AllNumbersFrom(v.elems, 0)
  }

  /** The first loop of `is_point_list` from position `i` on. */
  function AllPointsFrom(s: seq<Value>, i: nat): (b: bool)
    decreases |s| - i
    ensures b <==> forall j :: i <= j < |s| ==> IsPoint(s[j])
  {
    if i >= |s| then true
    else if !IsPoint(s[i]) then false
    else AllPointsFrom(s, i + 1)
  }

  /** The second loop of `is_point_list` from position `i` on. */
  function SameLengthFrom(s: seq<Value>, i: nat, n: nat): (b: bool)
    requires forall j :: 0 <= j < |s| ==> s[j].VList?
    decreases |s| - i
    ensures b <==> forall j :: i <= j < |s| ==> |s[j].elems| == n
  {
    if i >= |s| then true
    else if |s[i].elems| != n then false
    else SameLengthFrom(s, i + 1, n)
  }

  /** `is_point_list`: a list of points that all have the first point's length.
      On the empty list the code reads `value[0]` and raises IndexError. */
  function IsPointList(v: Value): (r: Result<bool>)
    ensures r.Err? <==> v == VList([])
    ensures r == Ok(true) <==>
      v.VList? && |v.elems| > 0 &&
      (forall j :: 0 <= j < |v.elems| ==> IsPoint(v.elems[j])) &&
      (forall j :: 0 <= j < |v.elems| ==> |v.elems[j].elems| == |v.elems[0].elems|)
  {
    if !v.VList? then Ok(false)
    else if !AllPointsFrom(v.elems, 0) then Ok(false)
    else if |v.elems| == 0 then Err(IndexError)
    else Ok(SameLengthFrom(v.elems, 0, |v.elems[0].elems|))
  }

  // ---------------------------------------------------------------------
  // Converting between Python values and stored points

  /** The coordinates of a point value (ints and floats alike, as reals). */
  function ToPoint(v: Value): (p: seq<real>)
    requires IsPoint(v)
    ensures |p| == |v.elems|
    ensures forall j :: 0 <= j < |p| ==> p[j] == AsReal(v.elems[j])
  {
    seq(|v.elems|, j requires 0 <= j < |v.elems| => AsReal(v.elems[j]))
  }

  /** The rows of a point-list value. */
  function ToTable(v: Value): (t: seq<seq<real>>)
    requires v.VList? && forall j :: 0 <= j < |v.elems| ==> IsPoint(v.elems[j])
    ensures |t| == |v.elems|
    ensures forall j :: 0 <= j < |t| ==> t[j] == ToPoint(v.elems[j])
  {
    seq(|v.elems|, j requires 0 <= j < |v.elems| => ToPoint(v.elems[j]))
  }

  /** A stored point written back as a Python list of floats. */
  function PointValue(p: seq<real>): Value {
    VList(seq(|p|, j requires 0 <= j < |p| => VFloat(p[j])))
  }

  /** A table written back as a Python list of lists of floats. */
  function TableValue(t: seq<seq<real>>): Value {
    VList(seq(|t|, i requires 0 <= i < |t| => PointValue(t[i])))
  }

  /** Every list of floats is a point, and converting it back gives the same coordinates. */
  lemma PointRoundTrip(p: seq<real>)
    ensures IsPoint(PointValue(p)) && ToPoint(PointValue(p)) == p
  {
  }

  /** On a table of reals, `is_point_list` fails exactly on the empty table and
      otherwise says whether the table is rectangular. */
  lemma {:induction false} PointListOfTable(t: seq<seq<real>>)
    ensures IsPointList(TableValue(t)) ==
      if |t| == 0 then Err(IndexError)
      else Ok(forall i :: 0 <= i < |t| ==> |t[i]| == |t[0]|)
    ensures |t| > 0 ==> IsPointList(TableValue(t)) == Ok(true) ==> ToTable(TableValue(t)) == t
  {
    var v := TableValue(t);
    forall i | 0 <= i < |t|
      ensures IsPoint(v.elems[i]) && |v.elems[i].elems| == |t[i]| && ToPoint(v.elems[i]) == t[i]
    {
      PointRoundTrip(t[i]);
    }
    if |t| > 0 {
      assert v != VList([]);
    }
  }

  // ---------------------------------------------------------------------
  // Rendering (`__str__`)

  /** A formatted number: Python's `str(float(x))` never contains a newline. */
  type Numeral = s: string | '\n' !in s witness ""

  /** The number a string of decimal digits denotes, most significant first. */
  function DigitsValue(s: string): nat
    requires forall k :: 0 <= k < |s| ==> '0' <= s[k] <= '9'
    decreases |s|
  {
    if |s| == 0 then 0
    else DigitsValue(s[..|s| - 1]) * 10 + (s[|s| - 1] as int - '0' as int)
  }

  /** Decimal digits of a natural number, as `str(n)` writes them: digits
      that denote `n`, with no leading zero. */
  function NatToString(n: nat): (s: string)
    ensures |s| > 0
    ensures forall k :: 0 <= k < |s| ==> '0' <= s[k] <= '9'
    ensures DigitsValue(s) == n
    ensures s[0] == '0' ==> s == "0"
  {
    var d := ['0' + (n % 10) as char];
    if n < 10 then d
    else
      var s := NatToString(n / 10) + d;
      assert s[..|s| - 1] == NatToString(n / 10);
      s
  }

  /** `parts` with `sep` between consecutive parts. */
  function Join(parts: seq<string>, sep: string): string
    decreases |parts|
  {
    if |parts| == 0 then ""
    else if |parts| == 1 then parts[0]
    else Join(parts[..|parts| - 1], sep) + sep + parts[|parts| - 1]
  }

  /** Python's `s.split(c)`: the pieces between occurrences of `c`. */
  function Split(s: string, c: char): (r: seq<string>)
    ensures |r| > 0
    decreases |s|
  {
    if |s| == 0 then [""]
    else
      var init := Split(s[..|s| - 1], c);
      if s[|s| - 1] == c then init + [""]
      else init[..|init| - 1] + [init[|init| - 1] + [s[|s| - 1]]]
  }

  /** The formatted coordinates of one point. */
  function Formatted(p: seq<real>, format: real -> Numeral): seq<string> {
    seq(|p|, j requires 0 <= j < |p| => var s: string := format(p[j]); s)
  }

  /** Line `i` of the rendering: `"i: [v0,v1,...]"`. */
  function Line(i: nat, p: seq<real>, format: real -> Numeral): string {
    NatToString(i) + ": [" + Join(Formatted(p, format), ",") + "]"
  }

  function Lines(t: seq<seq<real>>, format: real -> Numeral): seq<string> {
    seq(|t|, i requires 0 <= i < |t| => Line(i, t[i], format))
  }

  /** The whole rendering: the lines joined by single newlines. */
  function Text(t: seq<seq<real>>, format: real -> Numeral): string {
    Join(Lines(t, format), "\n")
  }

  lemma {:induction false} JoinWithout(parts: seq<string>, sep: string, c: char)
    requires c !in sep
    requires forall i :: 0 <= i < |parts| ==> c !in parts[i]
    ensures c !in Join(parts, sep)
    decreases |parts|
  {
    if |parts| > 1 {
      JoinWithout(parts[..|parts| - 1], sep, c);
    }
  }

  lemma {:induction false} SplitWithout(b: string, c: char)
    requires c !in b
    ensures Split(b, c) == [b]
    decreases |b|
  {
    if |b| > 0 {
      SplitWithout(b[..|b| - 1], c);
      assert b[..|b| - 1] + [b[|b| - 1]] == b;
    }
  }

  lemma {:induction false} SplitAfter(a: string, b: string, c: char)
    requires c !in b
    ensures Split(a + [c] + b, c) == Split(a, c) + [b]
    decreases |b|
  {
    var s := a + [c] + b;
    if |b| == 0 {
      assert s[..|s| - 1] == a;
    } else {
      var b' := b[..|b| - 1];
      assert s[..|s| - 1] == a + [c] + b';
      SplitAfter(a, b', c);
      assert b' + [b[|b| - 1]] == b;
    }
  }

  /** Splitting a join at a separator that no part contains gives the parts back. */
  lemma {:induction false} SplitJoin(parts: seq<string>, c: char)
    requires |parts| > 0
    requires forall i :: 0 <= i < |parts| ==> c !in parts[i]
    ensures Split(Join(parts, [c]), c) == parts
    decreases |parts|
  {
    if |parts| == 1 {
      SplitWithout(parts[0], c);
    } else {
      var init := parts[..|parts| - 1];
      SplitJoin(init, c);
      SplitAfter(Join(init, [c]), parts[|parts| - 1], c);
      assert init + [parts[|parts| - 1]] == parts;
    }
  }

  /** The rendering of a non-empty table has exactly one line per point, split
      at '\n' with no trailing newline, and line i reads `"i: [v0,...,vD-1]"`;
      the rendering of an empty table is empty. */
  lemma RenderedLines(t: seq<seq<real>>, format: real -> Numeral)
    ensures |t| == 0 <==> Text(t, format) == ""
    ensures |t| > 0 ==> Split(Text(t, format), '\n') == Lines(t, format)
    ensures |t| > 0 ==> |Split(Text(t, format), '\n')| == |t|
  {
    var ls := Lines(t, format);
    forall i | 0 <= i < |t| ensures '\n' !in ls[i] {
      var f := Formatted(t[i], format);
      forall j | 0 <= j < |f| ensures '\n' !in f[j] {
        var x: Numeral := format(t[i][j]);
      }
      JoinWithout(f, ",", '\n');
      var d := NatToString(i);
      assert forall k :: 0 <= k < |d| ==> d[k] != '\n';
      assert ls[i] == d + ": [" + Join(f, ",") + "]";
    }
    if |t| > 0 {
      SplitJoin(ls, '\n');
      assert |ls[|ls| - 1]| > 0;
    }
  }

  lemma JoinSnoc(parts: seq<string>, sep: string, x: string)
    ensures Join(parts + [x], sep) == if |parts| == 0 then x else Join(parts, sep) + sep + x
  {
    assert (parts + [x])[..|parts|] == parts;
  }

  /** What the rendering loop has built when it starts on line `i`: the earlier
      lines, a newline, and the opening of line `i`. */
  ghost function Opening(ls: seq<string>, i: nat): string
    requires i <= |ls|
  {
    (if i > 0 then Join(ls[..i], "\n") + "\n" else "") + NatToString(i) + ": ["
  }

  /** Closing line `i` after its opening gives the first `i + 1` lines. */
  lemma LineCompletes(ls: seq<string>, i: nat, row: string)
    requires i < |ls|
    requires ls[i] == NatToString(i) + ": [" + row + "]"
    ensures Opening(ls, i) + row + "]" == Join(ls[..i + 1], "\n")
  {
    JoinSnoc(ls[..i], "\n", ls[i]);
    assert ls[..i + 1] == ls[..i] + [ls[i]];
    var head := NatToString(i) + ": [";
    if i > 0 {
      var done := Join(ls[..i], "\n") + "\n";
      assert Opening(ls, i) == done + head;
      assert (done + head) + row + "]" == done + (head + row + "]");
    }
  }

  // ---------------------------------------------------------------------
  // The dataset

  class Dataset {
    /** The point dimension, fixed at construction. */
    const dimension: int
    /** The stored points, in insertion order. */
    var contents: seq<seq<real>>

    /** The class invariant: a positive dimension, and every row of that length. */
    ghost predicate Valid()
      reads this
    {
      dimension > 0 &&
      forall i :: 0 <= i < |contents| ==> |contents[i]| == dimension
    }

    /** `Dataset(dim, contents)`; `rows.None?` stands for the default `contents=None`. */
    constructor (dim: int, rows: Option<Value>)
      requires dim > 0
      requires rows.Some? ==> IsPointList(rows.value) == Ok(true)
      requires rows.Some? ==> forall i :: 0 <= i < |rows.value.elems| ==> |rows.value.elems[i].elems| == dim
      ensures Valid()
      ensures dimension == dim
      ensures rows.None? ==> contents == []
      ensures rows.Some? ==> |contents| == |rows.value.elems| && contents == ToTable(rows.value)
    {
      dimension := dim;
      if rows.None? {
        contents := [];
      } else {
        contents := ToTable(rows.value);
      }
    }

    function GetDimension(): (d: int)
      reads this
      requires Valid()
      ensures d > 0 && d == dimension
    {
      dimension
    }

    function GetSize(): (n: nat)
      reads this
      ensures n == |contents|
    {
      |contents|
    }

    function GetContents(): (t: seq<seq<real>>)
      reads this
      requires Valid()
      ensures |t| == GetSize()
      ensures forall i :: 0 <= i < |t| ==> |t[i]| == dimension && t[i] == contents[i]
    {
      contents
    }

    function GetPoint(i: int): (p: seq<real>)
      reads this
      requires Valid()
      requires 0 <= i < |contents|
      ensures |p| == dimension
      ensures p == contents[i]
    {
      contents[i]
    }

    /** `addPoint`. A false result stands for the AssertionError the code raises
        when the argument is not a point of the right dimension; nothing is
        stored then. */
    method AddPoint(point: Value) returns (ok: bool)
      requires Valid()
      modifies this
      ensures Valid()
      ensures ok <==> IsPoint(point) && |point.elems| == dimension
      ensures ok ==> contents == old(contents) + [ToPoint(point)]
      ensures !ok ==> contents == old(contents)
    {
      if !IsPoint(point) || |point.elems| != dimension {
        return false;
      }
      var newPoint := ToPoint(point);
      contents := contents + [newPoint];
      ok := true;
    }

    /** The inner loop of `__str__`: the coordinates of one point, formatted and
        separated by commas without spaces. */
    static method RenderCoordinates(point: seq<real>, format: real -> Numeral) returns (text: string)
      ensures text == Join(Formatted(point, format), ",")
    {
      ghost var f := Formatted(point, format);
      text := "";
      for j := 0 to |point|
        invariant text == Join(f[..j], ",") + (if 0 < j < |point| then "," else "")
      {
        JoinSnoc(f[..j], ",", f[j]);
        assert f[..j + 1] == f[..j] + [f[j]];
        text := text + format(point[j]);
        if j < |point| - 1 {
          text := text + ",";
        }
      }
      assert f[..|point|] == f;
    }

    /** `__str__`, with `format` standing for `str(float(x))`. */
    method Render(format: real -> Numeral) returns (total: string)
      requires Valid()
      ensures total == Text(contents, format)
    {
      if contents == [] {
        return "";
      }
      var n := |contents|;
      ghost var ls := Lines(contents, format);
      total := "0: [";
      for i := 0 to n
        invariant i < n ==> total == Opening(ls, i)
        invariant i == n ==> total == Join(ls[..i], "\n")
      {
        var point := GetPoint(i);
        var row := RenderCoordinates(point, format);
        LineCompletes(ls, i, row);
        total := total + row + "]";
        if i < n - 1 {
          total := total + "\n" + NatToString(i + 1) + ": [";
        }
      }
      assert ls[..n] == ls;
    }
  }
}
