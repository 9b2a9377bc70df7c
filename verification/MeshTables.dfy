/** The tables of a mesh file: how vectors and faces are printed, and how they are taken from the
    stream of numbers again (tools/pz_x_mesh.py). */
module MeshTables {
  import opened Common
  import opened MeshNumbers

  function Join(sep: string, parts: seq<string>): (r: string) {
    if parts == [] then "" else if |parts| == 1 then parts[0] else parts[0] + sep + Join(sep, parts[1..])
  }

  function NumberTexts(row: seq<real>): (r: seq<string>)
    ensures |r| == |row|
  {
    seq(|row|, i requires 0 <= i < |row| => NumberText(row[i]))
  }

  function IntTexts(row: seq<int>): (r: seq<string>)
    ensures |r| == |row|
  {
    seq(|row|, i requires 0 <= i < |row| => IntText(row[i]))
  }

  function VectorText(row: seq<real>): (r: string) {
    Join(";", NumberTexts(row)) + ";"
  }

  function FaceText(row: seq<int>): (r: string) {
    IntText(|row|) + ";" + Join(",", IntTexts(row)) + ";"
  }

  function VectorTexts(rows: seq<seq<real>>): (r: seq<string>)
    ensures |r| == |rows|
  {
    seq(|rows|, i requires 0 <= i < |rows| => VectorText(rows[i]))
  }

  function VectorsText(rows: seq<seq<real>>): (r: string) {
    IntText(|rows|) + ";\n" + Join(",\n", VectorTexts(rows)) + ";\n"
  }

  function FaceTexts(rows: seq<seq<int>>): (r: seq<string>)
    ensures |r| == |rows|
  {
    seq(|rows|, i requires 0 <= i < |rows| => FaceText(rows[i]))
  }

  function FacesText(rows: seq<seq<int>>): (r: string) {
    IntText(|rows|) + ";\n" + Join(",\n", FaceTexts(rows)) + ";\n"
  }

  // ---- the stream of numbers

  type Taken<T> = Option<(T, seq<real>)>

  function Take(vs: seq<real>, count: int): (r: Taken<seq<real>>)
    ensures r.Some? ==> |r.value.0| == if count <= 0 then 0 else count
  {
    if count <= 0 then Some(([], vs)) else if |vs| < count then None else Some((vs[..count], vs[count..]))
  }

  function TakeInt(vs: seq<real>): (r: Taken<int>) {
    if vs == [] then None else Some((Trunc(vs[0]), vs[1..]))
  }

  function TakeRows(vs: seq<real>, count: int, dimension: nat): (r: Taken<seq<seq<real>>>)
    decreases count
  {
    if count <= 0 then Some(([], vs))
    else
      var row := Take(vs, dimension);
      if row.None? then None
      else
        var more := TakeRows(row.value.1, count - 1, dimension);
        if more.None? then None else Some(([row.value.0] + more.value.0, more.value.1))
  }

  function Truncated(row: seq<real>): (r: seq<int>)
    ensures |r| == |row|
  {
    seq(|row|, i requires 0 <= i < |row| => Trunc(row[i]))
  }

  function TakeFace(vs: seq<real>): (r: Taken<seq<int>>) {
    var count := TakeInt(vs);
    if count.None? then None
    else
      var row := Take(count.value.1, count.value.0);
      if row.None? then None else Some((Truncated(row.value.0), row.value.1))
  }

  function TakeFaces(vs: seq<real>, count: int): (r: Taken<seq<seq<int>>>)
    decreases count
  {
    if count <= 0 then Some(([], vs))
    else
      var row := TakeFace(vs);
      if row.None? then None
      else
        var more := TakeFaces(row.value.1, count - 1);
        if more.None? then None else Some(([row.value.0] + more.value.0, more.value.1))
  }

  function Vectors(vs: seq<real>, dimension: nat): (r: Taken<seq<seq<real>>>) {
    var count := TakeInt(vs);
    if count.None? then None else TakeRows(count.value.1, count.value.0, dimension)
  }

  function Faces(vs: seq<real>): (r: Taken<seq<seq<int>>>) {
    var count := TakeInt(vs);
    if count.None? then None else TakeFaces(count.value.1, count.value.0)
  }

  /** The iterator over a text's numbers; a read past the end raises, shown as None. */
  class Numbers {
    var values: seq<real>

    constructor (text: string)
      ensures values == Tokens(text)
    {
      var found := Scan(text);
      values := found;
    }

    static method Scan(text: string) returns (values: seq<real>)
      ensures values == Tokens(text)
    {
      hide Value, NumberAt;
      values := [];
      var rest := text;
      assert [] + Tokens(rest) == Tokens(rest);
      while rest != ""
        invariant values + Tokens(rest) == Tokens(text)
        decreases |rest|
      {
        var n := NumberAt(rest);
        if n > 0 {
          var v := Value(rest[..n]);
          assert values + ([v] + Tokens(rest[n..])) == values + [v] + Tokens(rest[n..]);
          values, rest := values + [v], rest[n..];
        } else {
          rest := rest[1..];
        }
      }
      assert values + [] == values;
    }

    /** The result and the rest of the stream are what the specification takes from the stream before. */
    ghost predicate Took<T>(spec: Taken<T>, r: Option<T>)
      reads this
    {
      if r.None? then spec.None? else spec == Some((r.value, values))
    }

    method TakeSome(count: int) returns (r: Option<seq<real>>)
      modifies this
      ensures Took(Take(old(values), count), r)
    {
      var taken: seq<real> := [];
      var i := 0;
      while i < count
        invariant 0 <= i && (i <= count || (count < 0 && i == 0)) && |taken| == i <= |old(values)|
        invariant old(values) == taken + values
      {
        if values == [] {
          return None;
        }
        taken, values := taken + [values[0]], values[1..];
        i := i + 1;
      }
      r := Some(taken);
      assert old(values)[..|taken|] == taken && old(values)[|taken|..] == values;
    }

    method Integer() returns (r: Option<int>)
      modifies this
      ensures Took(TakeInt(old(values)), r)
    {
      if values == [] {
        return None;
      }
      r := Some(Trunc(values[0]));
      values := values[1..];
    }

    method VectorRows(dimension: nat) returns (r: Option<seq<seq<real>>>)
      modifies this
      ensures Took(Vectors(old(values), dimension), r)
    {
      hide Take;
      var count := Integer();
      if count.None? {
        return None;
      }
      var rows: seq<seq<real>> := [];
      var i := 0;
      ghost var all := TakeRows(values, count.value, dimension);
      ContinuesFirst(all);
      while i < count.value
        invariant 0 <= i && (i <= count.value || count.value < 0)
        invariant Continues(all, rows, TakeRows(values, count.value - i, dimension))
      {
        ghost var before := TakeRows(values, count.value - i, dimension);
        var row := TakeSome(dimension);
        if row.None? {
          return None;
        }
        ContinuesMore(all, rows, before, row.value, TakeRows(values, count.value - i - 1, dimension));
        rows := rows + [row.value];
        i := i + 1;
      }
      assert rows + [] == rows;
      r := Some(rows);
    }

    method FaceRows() returns (r: Option<seq<seq<int>>>)
      modifies this
      ensures Took(Faces(old(values)), r)
    {
      hide Take;
      var count := Integer();
      if count.None? {
        return None;
      }
      var rows: seq<seq<int>> := [];
      var i := 0;
      ghost var all := TakeFaces(values, count.value);
      ContinuesFirst(all);
      while i < count.value
        invariant 0 <= i && (i <= count.value || count.value < 0)
        invariant Continues(all, rows, TakeFaces(values, count.value - i))
      {
        ghost var before := TakeFaces(values, count.value - i);
        var size := Integer();
        if size.None? {
          return None;
        }
        var row := TakeSome(size.value);
        if row.None? {
          return None;
        }
        ContinuesMore(all, rows, before, Truncated(row.value), TakeFaces(values, count.value - i - 1));
        rows := rows + [Truncated(row.value)];
        i := i + 1;
      }
      assert rows + [] == rows;
      r := Some(rows);
    }
  }

  /** The whole reading is the rows read so far followed by the reading of the rest. */
  ghost predicate Continues<T(!new)>(all: Taken<seq<T>>, rows: seq<T>, rest: Taken<seq<T>>) {
    if rest.None? then all.None? else all == Some((rows + rest.value.0, rest.value.1))
  }

  lemma ContinuesFirst<T(!new)>(all: Taken<seq<T>>)
    ensures Continues(all, [], all)
  {
    if all.Some? {
      assert [] + all.value.0 == all.value.0;
    }
  }

  lemma ContinuesMore<T(!new)>(all: Taken<seq<T>>, rows: seq<T>, before: Taken<seq<T>>, row: T, after: Taken<seq<T>>)
    requires Continues(all, rows, before)
    requires before == if after.None? then None else Some(([row] + after.value.0, after.value.1))
    ensures Continues(all, rows + [row], after)
  {
    if after.Some? {
      assert rows + ([row] + after.value.0) == rows + [row] + after.value.0;
    }
  }

  // ---- reading undoes printing

  /** Whatever follows, the text contributes exactly these numbers. */
  ghost predicate Closed(text: string, vs: seq<real>) {
    forall rest: string :: Tokens(text + rest) == vs + Tokens(rest)
  }

  predicate Quiet(s: string) {
    forall i :: 0 <= i < |s| ==> !('0' <= s[i] <= '9' || s[i] == '+' || s[i] == '-' || s[i] == '.')
  }

  lemma {:induction false} QuietTokens(text: string, rest: string)
    requires Quiet(text)
    ensures Tokens(text + rest) == Tokens(rest)
  {
    if text == "" {
      assert text + rest == rest;
    } else {
      var s := text + rest;
      assert s[0] == text[0] && s[1..] == text[1..] + rest && s[0..] == s;
      QuietTokens(text[1..], rest);
      hide Value;
    }
  }

  lemma QuietClosed(text: string)
    requires Quiet(text)
    ensures Closed(text, [])
  {
    forall rest: string ensures Tokens(text + rest) == [] + Tokens(rest) {
      QuietTokens(text, rest);
    }
  }

  lemma CatClosed(a: string, u: seq<real>, b: string, v: seq<real>)
    requires Closed(a, u) && Closed(b, v)
    ensures Closed(a + b, u + v)
  {
    hide Tokens;
    forall rest: string ensures Tokens(a + b + rest) == u + v + Tokens(rest) {
      assert a + b + rest == a + (b + rest);
      assert u + (v + Tokens(rest)) == u + v + Tokens(rest);
    }
  }

  /** One token with a closing character behind it. */
  lemma TokenClosed(text: string, x: real, end: string)
    requires forall rest: string :: Stops(rest) ==> NumberAt(text + rest) == |text| > 0
    requires Value(text) == x && end != "" && Stops(end) && Quiet(end)
    ensures Closed(text + end, [x])
  {
    hide NumberAt, Value;
    forall rest: string ensures Tokens(text + end + rest) == [x] + Tokens(rest) {
      var s := text + (end + rest);
      assert text + end + rest == s;
      assert (end + rest)[0] == end[0];
      assert s[..|text|] == text && s[|text|..] == end + rest;
      QuietTokens(end, rest);
    }
  }

  lemma NumberClosed(x: real, end: string)
    requires Fixed(x) && end != "" && Stops(end) && Quiet(end)
    ensures Closed(NumberText(x) + end, [x])
  {
    hide NumberText, NumberAt, Fixed;
    forall rest: string | Stops(rest) ensures NumberAt(NumberText(x) + rest) == |NumberText(x)| > 0 {
      NumberIsToken(x, rest);
    }
    NumberBack(x);
    TokenClosed(NumberText(x), x, end);
  }

  lemma IntClosed(n: int, end: string)
    requires end != "" && Stops(end) && Quiet(end)
    ensures Closed(IntText(n) + end, [n as real])
  {
    assert IntText(n) != "";
    hide IntText, NumberAt;
    forall rest: string | Stops(rest) ensures NumberAt(IntText(n) + rest) == |IntText(n)| > 0 {
      IntIsToken(n, rest);
    }
    IntBack(n);
    TokenClosed(IntText(n), n as real, end);
  }

  function Flat(rows: seq<seq<real>>): (r: seq<real>) {
    if rows == [] then [] else rows[0] + Flat(rows[1..])
  }

  /** Parts that are closed by the separator and by the end make a closed list. */
  lemma {:induction false} JoinClosed(sep: string, parts: seq<string>, vs: seq<seq<real>>, end: string)
    requires |parts| == |vs| && Closed(end, [])
    requires forall i :: 0 <= i < |parts| ==> Closed(parts[i] + sep, vs[i]) && Closed(parts[i] + end, vs[i])
    ensures Closed(Join(sep, parts) + end, Flat(vs))
    decreases |parts|
  {
    hide Closed;
    if parts == [] {
      assert "" + end == end;
    } else if |parts| == 1 {
      assert Flat(vs[1..]) == [] && vs[0] + [] == vs[0];
    } else {
      JoinClosed(sep, parts[1..], vs[1..], end);
      CatClosed(parts[0] + sep, vs[0], Join(sep, parts[1..]) + end, Flat(vs[1..]));
      assert Join(sep, parts) + end == parts[0] + sep + (Join(sep, parts[1..]) + end);
    }
  }

  function Singles(row: seq<real>): (r: seq<seq<real>>)
    ensures |r| == |row|
  {
    seq(|row|, i requires 0 <= i < |row| => [row[i]])
  }

  lemma {:induction false} FlatSingles(row: seq<real>)
    ensures Flat(Singles(row)) == row
  {
    if row != [] {
      assert Singles(row)[1..] == Singles(row[1..]);
      FlatSingles(row[1..]);
      assert row == [row[0]] + row[1..];
    }
  }

  function Reals(row: seq<int>): (r: seq<real>)
    ensures |r| == |row|
  {
    seq(|row|, i requires 0 <= i < |row| => row[i] as real)
  }

  predicate AllFixed(row: seq<real>) {
    forall i :: 0 <= i < |row| ==> Fixed(row[i])
  }

  lemma NumbersClosed(row: seq<real>, sep: string, end: string)
    requires AllFixed(row) && sep != "" && Stops(sep) && Quiet(sep) && end != "" && Stops(end) && Quiet(end)
    ensures Closed(Join(sep, NumberTexts(row)) + end, row)
  {
    hide Closed, Quiet, Stops, Fixed, NumberText;
    QuietClosed(end);
    forall i | 0 <= i < |row| ensures Closed(NumberTexts(row)[i] + sep, Singles(row)[i]) && Closed(NumberTexts(row)[i] + end, Singles(row)[i]) {
      NumberClosed(row[i], sep);
      NumberClosed(row[i], end);
    }
    JoinClosed(sep, NumberTexts(row), Singles(row), end);
    FlatSingles(row);
  }

  lemma IntsClosed(row: seq<int>, end: string)
    requires end != "" && Stops(end) && Quiet(end)
    ensures Closed(Join(",", IntTexts(row)) + end, Reals(row))
  {
    assert Stops(",") && Quiet(",");
    hide Closed, Quiet, Stops, IntText;
    QuietClosed(end);
    forall i | 0 <= i < |row| ensures Closed(IntTexts(row)[i] + ",", Singles(Reals(row))[i]) && Closed(IntTexts(row)[i] + end, Singles(Reals(row))[i]) {
      IntClosed(row[i], ",");
      IntClosed(row[i], end);
    }
    JoinClosed(",", IntTexts(row), Singles(Reals(row)), end);
    FlatSingles(Reals(row));
  }

  function Headed(count: nat, vs: seq<real>): (r: seq<real>) {
    [count as real] + vs
  }

  lemma VectorLine(row: seq<real>)
    requires AllFixed(row)
    ensures Closed(VectorText(row) + ",\n", row) && Closed(VectorText(row) + ";\n", row)
  {
    assert Quiet(",\n") && Quiet(";\n");
    hide Closed, Quiet, VectorText, AllFixed;
    QuietClosed(",\n");
    QuietClosed(";\n");
    VectorClosed(row);
    CatClosed(VectorText(row), row, ",\n", []);
    CatClosed(VectorText(row), row, ";\n", []);
    assert row + [] == row;
  }

  lemma VectorsClosed(rows: seq<seq<real>>)
    requires forall i :: 0 <= i < |rows| ==> AllFixed(rows[i])
    ensures Closed(VectorsText(rows), Headed(|rows|, Flat(rows)))
  {
    hide Closed, AllFixed, VectorText, Join, Flat;
    EndingClosed();
    var parts := VectorTexts(rows);
    forall i | 0 <= i < |parts| ensures Closed(parts[i] + ",\n", rows[i]) && Closed(parts[i] + ";\n", rows[i]) {
      VectorLine(rows[i]);
    }
    JoinClosed(",\n", parts, rows, ";\n");
    hide VectorTexts, Headed;
    TableClosed(|rows|, Join(",\n", parts), Flat(rows));
  }

  lemma EndingClosed()
    ensures Closed(";\n", []) && Stops(";\n") && Quiet(";\n") && Quiet(",\n")
  {
    hide Closed;
    assert Quiet(";\n");
    QuietClosed(";\n");
  }

  lemma TableClosed(n: nat, body: string, vs: seq<real>)
    requires Closed(body + ";\n", vs)
    ensures Closed(IntText(n) + ";\n" + body + ";\n", Headed(n, vs))
  {
    hide Closed, IntText;
    EndingClosed();
    IntClosed(n, ";\n");
    CatClosed(IntText(n) + ";\n", [n as real], body + ";\n", vs);
    assert IntText(n) + ";\n" + body + ";\n" == IntText(n) + ";\n" + (body + ";\n");
  }

  lemma VectorClosed(row: seq<real>)
    requires AllFixed(row)
    ensures Closed(VectorText(row), row)
  {
    assert Stops(";") && Quiet(";");
    hide Closed, Quiet, Stops, AllFixed, NumberTexts, Join;
    NumbersClosed(row, ";", ";");
  }

  function FaceNumbers(row: seq<int>): (r: seq<real>) {
    Headed(|row|, Reals(row))
  }

  function FacesNumbers(rows: seq<seq<int>>): (r: seq<seq<real>>)
    ensures |r| == |rows|
  {
    seq(|rows|, i requires 0 <= i < |rows| => FaceNumbers(rows[i]))
  }

  lemma FaceClosed(row: seq<int>)
    ensures Closed(FaceText(row), FaceNumbers(row))
  {
    assert Stops(";") && Quiet(";");
    hide Closed, Quiet, Stops, IntTexts, Join, IntText;
    IntsClosed(row, ";");
    IntClosed(|row|, ";");
    CatClosed(IntText(|row|) + ";", [|row| as real], Join(",", IntTexts(row)) + ";", Reals(row));
    assert FaceText(row) == IntText(|row|) + ";" + (Join(",", IntTexts(row)) + ";");
  }

  lemma FaceLine(row: seq<int>)
    ensures Closed(FaceText(row) + ",\n", FaceNumbers(row)) && Closed(FaceText(row) + ";\n", FaceNumbers(row))
  {
    hide Closed, FaceText, FaceNumbers;
    EndingClosed();
    QuietClosed(",\n");
    FaceClosed(row);
    CatClosed(FaceText(row), FaceNumbers(row), ",\n", []);
    CatClosed(FaceText(row), FaceNumbers(row), ";\n", []);
    assert FaceNumbers(row) + [] == FaceNumbers(row);
  }

  lemma FacesClosed(rows: seq<seq<int>>)
    ensures Closed(FacesText(rows), Headed(|rows|, Flat(FacesNumbers(rows))))
  {
    hide Closed, FaceText, FaceNumbers, Join, Flat;
    EndingClosed();
    var parts, vs := FaceTexts(rows), FacesNumbers(rows);
    forall i | 0 <= i < |parts| ensures Closed(parts[i] + ",\n", vs[i]) && Closed(parts[i] + ";\n", vs[i]) {
      FaceLine(rows[i]);
    }
    JoinClosed(",\n", parts, vs, ";\n");
    hide FaceTexts, FacesNumbers, Headed;
    TableClosed(|rows|, Join(",\n", parts), Flat(vs));
  }

  lemma TakeBack(row: seq<real>, rest: seq<real>)
    ensures Take(row + rest, |row|) == Some((row, rest))
  {
    assert [] + rest == rest;
  }

  lemma {:induction false} RowsBack(rows: seq<seq<real>>, dimension: nat, rest: seq<real>)
    requires forall i :: 0 <= i < |rows| ==> |rows[i]| == dimension
    ensures TakeRows(Flat(rows) + rest, |rows|, dimension) == Some((rows, rest))
    decreases |rows|
  {
    hide Take;
    if rows == [] {
      assert [] + rest == rest;
    } else {
      assert Flat(rows) + rest == rows[0] + (Flat(rows[1..]) + rest);
      TakeBack(rows[0], Flat(rows[1..]) + rest);
      RowsBack(rows[1..], dimension, rest);
      assert rows == [rows[0]] + rows[1..];
    }
  }

  lemma IntTaken(n: nat, vs: seq<real>, rest: seq<real>)
    ensures TakeInt(Headed(n, vs) + rest) == Some((n, vs + rest))
  {
    hide Trunc, Value;
    IntBack(n);
    assert Headed(n, vs) + rest == [n as real] + (vs + rest);
  }

  /** Vectors read back as printed, and the stream stops right behind them. */
  lemma VectorsBack(rows: seq<seq<real>>, dimension: nat, rest: seq<real>)
    requires forall i :: 0 <= i < |rows| ==> |rows[i]| == dimension
    ensures Vectors(Headed(|rows|, Flat(rows)) + rest, dimension) == Some((rows, rest))
  {
    hide TakeInt, Flat;
    IntTaken(|rows|, Flat(rows), rest);
    RowsBack(rows, dimension, rest);
  }

  lemma TruncatedReals(row: seq<int>)
    ensures Truncated(Reals(row)) == row
  {
    forall i | 0 <= i < |row| ensures Trunc(Reals(row)[i]) == row[i] {
      IntBack(row[i]);
    }
  }

  lemma FaceBack(row: seq<int>, rest: seq<real>)
    ensures TakeFace(FaceNumbers(row) + rest) == Some((row, rest))
  {
    hide TakeInt, Take, Truncated;
    IntTaken(|row|, Reals(row), rest);
    TakeBack(Reals(row), rest);
    TruncatedReals(row);
  }

  lemma {:induction false} FaceRowsBack(rows: seq<seq<int>>, rest: seq<real>)
    ensures TakeFaces(Flat(FacesNumbers(rows)) + rest, |rows|) == Some((rows, rest))
    decreases |rows|
  {
    hide TakeFace, FaceNumbers;
    if rows == [] {
      assert [] + rest == rest;
    } else {
      var vs := FacesNumbers(rows);
      assert vs[1..] == FacesNumbers(rows[1..]);
      assert Flat(vs) + rest == vs[0] + (Flat(vs[1..]) + rest);
      FaceBack(rows[0], Flat(vs[1..]) + rest);
      FaceRowsBack(rows[1..], rest);
      assert rows == [rows[0]] + rows[1..];
    }
  }

  /** Faces read back as printed. */
  lemma FacesBack(rows: seq<seq<int>>, rest: seq<real>)
    ensures Faces(Headed(|rows|, Flat(FacesNumbers(rows))) + rest) == Some((rows, rest))
  {
    hide TakeInt, Flat, FacesNumbers;
    IntTaken(|rows|, Flat(FacesNumbers(rows)), rest);
    FaceRowsBack(rows, rest);
  }
}
