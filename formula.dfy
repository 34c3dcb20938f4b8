/**
 * The Airtable filter formula that the `/get-resources` handler builds from the
 * `sectors` property of the request body (server.js lines 27-35).
 *
 * `FilterFormula` is the reference definition; `BuildFilterFormula` follows the
 * handler step by step (a `map` into a local array, a `push`, two `join`s) and is
 * proved to compute it.
 */
module FormulaBuilder {
  import opened Wrappers

  /** The `sectors` property of the request body, as the handler's test sees it. */
  datatype SectorsField =
    | Falsy                        // absent, null, false, 0 or "": the test fails, no filtering
    | List(items: seq<string>)     // an array of sector names
    | Other(lengthPositive: bool)  // any other truthy value; `.length > 0` holds or not

  const CatchAllSector := "All sectors"
  const Separator := ", "

  /** The clause matching one sector; the name is interpolated without escaping. */
  function Clause(sector: string): string
  {
    "FIND(\"" + sector + "\", {Sector})"
  }

  /** `Array.prototype.join` on an array of strings. */
  function Join(parts: seq<string>, sep: string): string
    decreases |parts|
  {
    if |parts| == 0 then ""
    else if |parts| == 1 then parts[0]
    else Join(parts[..|parts| - 1], sep) + sep + parts[|parts| - 1]
  }

  /** The clauses of the OR group: one per sector, in order, then the catch-all. */
  function Clauses(items: seq<string>): seq<string>
  {
    seq(|items|, i requires 0 <= i < |items| => Clause(items[i])) + [Clause(CatchAllSector)]
  }

  /** The test `formData.sectors && formData.sectors.length > 0`, for a list. */
  predicate HasSectors(field: SectorsField)
  {
    field.List? && |field.items| > 0
  }

  /** The filter formula, or `Thrown` where `.map` is called on a value that has none. */
  function FilterFormula(field: SectorsField): Result<string>
  {
    match field
    case Falsy => Ok("")
    case Other(lengthPositive) => if lengthPositive then Thrown else Ok("")
    case List(items) =>
      if |items| == 0 then Ok("")
      else Ok("AND(" + Join(["OR(" + Join(Clauses(items), Separator) + ")"], Separator) + ")")
  }

  /** Sum of the lengths of a sequence of strings. */
  function TotalLength(parts: seq<string>): nat
    decreases |parts|
  {
    if |parts| == 0 then 0 else TotalLength(parts[..|parts| - 1]) + |parts[|parts| - 1]|
  }

  /** `parts.join(sep)`, as the loop of the JavaScript engine performs it. */
  method JoinParts(parts: seq<string>, sep: string) returns (s: string)
    ensures s == Join(parts, sep)
  {
    if |parts| == 0 {
      return "";
    }
    s := parts[0];
    var i := 1;
    while i < |parts|
      invariant 1 <= i <= |parts|
      invariant s == Join(parts[..i], sep)
    {
      assert parts[..i + 1][..i] == parts[..i];
      s := s + sep + parts[i];
      i := i + 1;
    }
    assert parts[..|parts|] == parts;
  }

  /** The handler's construction of the formula, one array operation at a time. */
  method BuildFilterFormula(field: SectorsField) returns (r: Result<string>)
    ensures r == FilterFormula(field)
  {
    var filters: seq<string> := [];
    if field.Other? && field.lengthPositive {
      // `formData.sectors.map` is not a function
      return Thrown;
    }
    if HasSectors(field) {
      var items := field.items;
      var sectorFilters: seq<string> := [];
      var i := 0;
      while i < |items|
        invariant 0 <= i <= |items|
        invariant |sectorFilters| == i
        invariant forall j :: 0 <= j < i ==> sectorFilters[j] == Clause(items[j])
      {
        sectorFilters := sectorFilters + [Clause(items[i])];
        i := i + 1;
      }
      sectorFilters := sectorFilters + [Clause(CatchAllSector)];
      assert sectorFilters == Clauses(items);
      var group := JoinParts(sectorFilters, Separator);
      filters := filters + ["OR(" + group + ")"];
    }
    if |filters| > 0 {
      var conjunction := JoinParts(filters, Separator);
      r := Ok("AND(" + conjunction + ")");
    } else {
      r := Ok("");
    }
  }

  /** Joining splits at any inner boundary. */
  lemma {:induction false} JoinSplit(parts: seq<string>, sep: string, i: nat)
    requires 0 < i < |parts|
    ensures Join(parts, sep) == Join(parts[..i], sep) + sep + Join(parts[i..], sep)
    decreases |parts|
  {
    var n := |parts|;
    if i == n - 1 {
      assert parts[i..] == [parts[n - 1]];
    } else {
      JoinSplit(parts[..n - 1], sep, i);
      assert parts[..n - 1][..i] == parts[..i];
      assert parts[..n - 1][i..] == parts[i..][..|parts[i..]| - 1];
    }
  }

  /** The joined string has the length of the parts plus one separator between each two. */
  lemma {:induction false} JoinLength(parts: seq<string>, sep: string)
    requires |parts| > 0
    ensures |Join(parts, sep)| == TotalLength(parts) + (|parts| - 1) * |sep|
    decreases |parts|
  {
    if |parts| > 1 {
      JoinLength(parts[..|parts| - 1], sep);
    } else {
      assert parts[..0] == [];
    }
  }

  /** The joined string starts with the first part. */
  lemma JoinHead(parts: seq<string>, sep: string)
    requires |parts| > 0
    ensures |parts[0]| <= |Join(parts, sep)| && Join(parts, sep)[..|parts[0]|] == parts[0]
  {
    if |parts| > 1 {
      JoinSplit(parts, sep, 1);
      assert parts[..1] == [parts[0]];
    }
  }

  /** One more separator in a row of `i`. */
  lemma MultiplyStep(i: nat, w: nat)
    requires i > 0
    ensures i * w == (i - 1) * w + w
  {
  }

  /** A slice that starts where the left operand of a concatenation ends. */
  lemma ConcatSlice(x: string, y: string, k: nat)
    requires k <= |y|
    ensures (x + y)[|x|..|x| + k] == y[..k]
  {
  }

  /** A slice of the middle operand of a concatenation. */
  lemma WrappedSlice(pre: string, mid: string, post: string, q: nat, n: nat)
    requires q + n <= |mid|
    ensures (pre + mid + post)[|pre| + q..|pre| + q + n] == mid[q..q + n]
  {
    var t := (pre + mid + post)[|pre| + q..|pre| + q + n];
    assert forall k :: 0 <= k < |t| ==> t[k] == mid[q..q + n][k];
  }

  /** A slice of a slice is a slice of the whole. */
  lemma SliceOfSlice(s: string, p: nat, n: nat, a: nat, b: nat)
    requires p + n <= |s| && a <= b <= n
    ensures s[p..p + n][a..b] == s[p + a..p + b]
  {
    var t := s[p..p + n][a..b];
    assert forall k :: 0 <= k < |t| ==> t[k] == s[p + a..p + b][k];
  }

  /** Part `i` sits verbatim in the joined string after the first `i` parts and separators. */
  lemma JoinPosition(parts: seq<string>, sep: string, i: nat)
    requires i < |parts|
    ensures var p := TotalLength(parts[..i]) + i * |sep|;
      p + |parts[i]| <= |Join(parts, sep)| && Join(parts, sep)[p..p + |parts[i]|] == parts[i]
  {
    var k := |parts[i]|;
    var rest := parts[i..];
    JoinHead(rest, sep);
    assert rest[0] == parts[i];
    var b := Join(rest, sep);
    assert b[..k] == parts[i];
    if i == 0 {
      assert rest == parts;
      assert parts[..0] == [];
    } else {
      var a := Join(parts[..i], sep);
      JoinSplit(parts, sep, i);
      JoinLength(parts[..i], sep);
      MultiplyStep(i, |sep|);
      assert |a + sep| == TotalLength(parts[..i]) + i * |sep|;
      assert Join(parts, sep) == (a + sep) + b;
      ConcatSlice(a + sep, b, k);
    }
  }

  /** The clauses are |items| + 1 long in all, and each is 18 characters longer than its sector. */
  lemma {:induction false} ClausesLength(items: seq<string>, i: nat)
    requires i <= |items|
    ensures TotalLength(Clauses(items)[..i]) == TotalLength(items[..i]) + 18 * i
  {
    if i > 0 {
      ClausesLength(items, i - 1);
      assert Clauses(items)[..i][..i - 1] == Clauses(items)[..i - 1];
      assert items[..i][..i - 1] == items[..i - 1];
    }
  }

  /** An absent, empty or non-list selection gives the empty formula; only a non-list
      value with a positive length makes the builder throw. */
  lemma FormulaEmptyIff(field: SectorsField)
    ensures FilterFormula(field) == Ok("") <==> !HasSectors(field) && field != Other(true)
    ensures FilterFormula(field).Thrown? <==> field == Other(true)
  {
  }

  /** A non-empty selection gives `AND(OR(` + the clauses joined by ", " + `))`, whose
      clauses are the sectors' in input order followed by the catch-all. */
  lemma FormulaShape(items: seq<string>)
    requires |items| > 0
    ensures FilterFormula(List(items)) == Ok("AND(OR(" + Join(Clauses(items), ", ") + "))")
    ensures |Clauses(items)| == |items| + 1
    ensures forall i :: 0 <= i < |items| ==> Clauses(items)[i] == Clause(items[i])
    ensures var f := FilterFormula(List(items)).value; var last := Clause(CatchAllSector) + "))";
      |last| <= |f| && f[|f| - |last|..] == last
  {
    var cs := Clauses(items);
    var group := "OR(" + Join(cs, ", ") + ")";
    assert Join([group], Separator) == group;
    assert "AND(" + group + ")" == "AND(OR(" + Join(cs, ", ") + "))";
    assert cs[|cs| - 1] == Clause(CatchAllSector);
    assert Join(cs, ", ") == Join(cs[..|cs| - 1], ", ") + ", " + Clause(CatchAllSector);
  }

  /** Clause `i` of the formula starts at an offset fixed by the lengths of the sectors
      before it. */
  lemma ClauseAt(items: seq<string>, i: nat)
    requires i < |items|
    ensures FilterFormula(List(items)).Ok?
    ensures var f := FilterFormula(List(items)).value;
      var p := 7 + TotalLength(items[..i]) + 20 * i;
      p + |Clause(items[i])| <= |f| && f[p..p + |Clause(items[i])|] == Clause(items[i])
  {
    var cs := Clauses(items);
    var j := Join(cs, ", ");
    var c := Clause(items[i]);
    FormulaShape(items);
    var f := FilterFormula(List(items)).value;
    assert f == "AND(OR(" + j + "))";
    assert cs[i] == c;
    JoinPosition(cs, ", ", i);
    ClausesLength(items, i);
    var q := TotalLength(cs[..i]) + i * |", "|;
    assert q == TotalLength(items[..i]) + 20 * i;
    WrappedSlice("AND(OR(", j, "))", q, |c|);
  }

  /** A clause is `FIND("`, the sector name as given, and `", {Sector})`. */
  lemma ClauseParts(name: string)
    ensures var c := Clause(name);
      |c| == |name| + 18 && c[..6] == "FIND(\"" && c[6..6 + |name|] == name &&
      c[6 + |name|..] == "\", {Sector})"
  {
    var c := Clause(name);
    assert c == "FIND(\"" + name + "\", {Sector})";
  }

  /** Sector `i` appears verbatim, right after the `FIND("` that opens its clause: nothing
      in a sector name is escaped. */
  lemma SectorVerbatim(items: seq<string>, i: nat)
    requires i < |items|
    ensures FilterFormula(List(items)).Ok?
    ensures var f := FilterFormula(List(items)).value;
      var p := 13 + TotalLength(items[..i]) + 20 * i;
      p + |items[i]| <= |f| && f[p - 6..p] == "FIND(\"" && f[p..p + |items[i]|] == items[i]
  {
    ClauseAt(items, i);
    var f := FilterFormula(List(items)).value;
    var name := items[i];
    var c := Clause(name);
    ClauseParts(name);
    var p := 7 + TotalLength(items[..i]) + 20 * i;
    SliceOfSlice(f, p, |c|, 0, 6);
    SliceOfSlice(f, p, |c|, 6, 6 + |name|);
  }

  /** Because nothing is escaped, different selections can give the same formula: a sector
      name holding `", {Sector}), FIND("` reads as two clauses. */
  lemma FormulaNotInjective()
    ensures ["a", "b"] != ["a\", {Sector}), FIND(\"b"]
    ensures FilterFormula(List(["a", "b"])) == FilterFormula(List(["a\", {Sector}), FIND(\"b"]))
  {
    var two := Clauses(["a", "b"]);
    var one := Clauses(["a\", {Sector}), FIND(\"b"]);
    assert two == [Clause("a"), Clause("b"), Clause(CatchAllSector)];
    assert one == [Clause("a\", {Sector}), FIND(\"b"), Clause(CatchAllSector)];
    assert two[..2] == [Clause("a"), Clause("b")];
    assert two[..2][..1] == [Clause("a")];
    assert Join(two[..2], ", ") == Clause("a") + ", " + Clause("b");
    assert Clause("a") + ", " + Clause("b") == Clause("a\", {Sector}), FIND(\"b");
    assert one[..1] == [Clause("a\", {Sector}), FIND(\"b")];
    assert Join(two, ", ") == Join(one, ", ");
  }
}
