/** The loader script that turns the scraped CSV into the stored job
    documents: it fills in missing text fields, places every job at the first
    known city its location names (or somewhere in India) with a small random
    jitter, and gives each job a weight of 1.0 boosted by its minimum salary
    relative to the largest one. */
module HeatmapGeo {
  import opened Values

  // ---------------------------------------------------------------- city lookup

  /** City names with their centres (latitude, longitude), in lookup order. */
  type CityTable = seq<(string, (real, real))>

  /** The known cities, in the order the lookup tries them. */
  const IndiaCities: CityTable := [
    ("Delhi", (28.6139, 77.2090)),
    ("Noida", (28.5355, 77.3910)),
    ("Bangalore", (12.9716, 77.5946)),
    ("Hyderabad", (17.3850, 78.4867)),
    ("Pune", (18.5204, 73.8567)),
    ("Mumbai", (19.0760, 72.8777)),
    ("Chennai", (13.0827, 80.2707)),
    ("Gurgaon", (28.4595, 77.0266)),
    ("Kolkata", (22.5726, 88.3639)),
    ("Ahmedabad", (23.0225, 72.5714))
  ]

  /** Where a location that names no known city is placed. */
  const IndiaCentre: (real, real) := (20.5937, 78.9629)

  /** Largest offset from a city's centre, and from India's centre. */
  const CityJitter: real := 0.015
  const CountryJitter: real := 1.0

  /** Python's `str.lower` on one character, as far as it can yield an ASCII
      letter: `A`-`Z`, the dotted capital I (which becomes `i` and a combining
      dot) and the Kelvin sign (which becomes `k`). Any other character is
      kept, which changes no match against the ASCII city names. */
  function LowerChar(c: char): string {
    if 'A' <= c <= 'Z' then [(c as int + 32) as char]
    else if c == '\U{130}' then "i\U{307}"
    else if c == '\U{212A}' then "k"
    else [c]
  }

  function Lower(s: string): (r: string)
    ensures |r| >= |s|
  {
    if |s| == 0 then "" else LowerChar(s[0]) + Lower(s[1..])
  }

  lemma {:induction false} LowerAppend(a: string, b: string)
    ensures Lower(a + b) == Lower(a) + Lower(b)
  {
    if |a| == 0 {
      assert a + b == b;
    } else {
      var ab := a + b;
      assert ab[0] == a[0];
      assert ab[1..] == a[1..] + b;
      LowerAppend(a[1..], b);
      assert Lower(ab) == LowerChar(a[0]) + Lower(a[1..] + b);
    }
  }

  /** The lowercase form of one character is already lowercase. */
  lemma LowerCharFixed(c: char)
    ensures Lower(LowerChar(c)) == LowerChar(c)
  {
    var l := LowerChar(c);
    if |l| == 2 {
      assert l == ['i'] + ['\U{307}'];
      LowerAppend(['i'], ['\U{307}']);
    } else {
      assert l == [l[0]] + [];
    }
  }

  /** Lowercasing twice is lowercasing once. */
  lemma {:induction false} LowerIdempotent(s: string)
    ensures Lower(Lower(s)) == Lower(s)
  {
    if |s| > 0 {
      var l, t := LowerChar(s[0]), s[1..];
      LowerIdempotent(t);
      LowerCharFixed(s[0]);
      LowerAppend(l, Lower(t));
      calc {
        Lower(Lower(s));
        Lower(l + Lower(t));
        Lower(l) + Lower(Lower(t));
        l + Lower(t);
        Lower(s);
      }
    }
  }

  /** `str.upper` on ASCII letters only. */
  function UpperAscii(s: string): (r: string)
    ensures |r| == |s|
  {
    if |s| == 0 then ""
    else [if 'a' <= s[0] <= 'z' then (s[0] as int - 32) as char else s[0]] + UpperAscii(s[1..])
  }

  /** Upper-casing the ASCII letters first makes no difference to the lowercase form. */
  lemma {:induction false} LowerOfUpper(s: string)
    ensures Lower(UpperAscii(s)) == Lower(s)
  {
    if |s| > 0 {
      LowerOfUpper(s[1..]);
      var u := UpperAscii(s);
      assert u[1..] == UpperAscii(s[1..]);
    }
  }

  /** `needle in hay` for strings. */
  function Contains(hay: string, needle: string): bool {
    if |hay| < |needle| then false
    else hay[..|needle|] == needle || Contains(hay[1..], needle)
  }

  /** `needle` occurs in `hay` starting at position `i`. */
  predicate OccursAt(hay: string, needle: string, i: nat) {
    i + |needle| <= |hay| && hay[i..i + |needle|] == needle
  }

  /** `Contains` holds exactly when `needle` occurs at some position of `hay`. */
  lemma {:induction false} ContainsIff(hay: string, needle: string)
    ensures Contains(hay, needle) <==> exists i: nat :: OccursAt(hay, needle, i)
  {
    if |hay| < |needle| {
    } else if hay[..|needle|] == needle {
      assert OccursAt(hay, needle, 0);
    } else {
      ContainsIff(hay[1..], needle);
      if Contains(hay[1..], needle) {
        var j: nat :| OccursAt(hay[1..], needle, j);
        assert hay[j + 1..j + 1 + |needle|] == hay[1..][j..j + |needle|];
        assert OccursAt(hay, needle, j + 1);
      }
      forall i: nat | OccursAt(hay, needle, i) ensures i > 0 && OccursAt(hay[1..], needle, i - 1) {
        assert hay[1..][i - 1..i - 1 + |needle|] == hay[i..i + |needle|];
      }
    }
  }

  /** A needle with a character the haystack lacks does not occur in it. */
  lemma {:induction false} MissingChar(hay: string, needle: string, c: char)
    requires c in needle && c !in hay
    ensures !Contains(hay, needle)
  {
    if |hay| >= |needle| {
      assert hay[..|needle|] != needle by {
        var k :| 0 <= k < |needle| && needle[k] == c;
        assert hay[k] != c;
      }
      MissingChar(hay[1..], needle, c);
    }
  }

  /** The lowercased name of the `k`-th city. */
  function CityKey(cities: CityTable, k: nat): string
    requires k < |cities|
  {
    Lower(cities[k].0)
  }

  /** The first city from position `k` on whose key occurs in `loc`. */
  function MatchFrom(cities: CityTable, loc: string, k: nat): (r: Option<nat>)
    requires k <= |cities|
    ensures r.Some? ==> k <= r.value < |cities| && Contains(loc, CityKey(cities, r.value))
    ensures r.Some? ==> forall j :: k <= j < r.value ==> !Contains(loc, CityKey(cities, j))
    ensures r.None? ==> forall j :: k <= j < |cities| ==> !Contains(loc, CityKey(cities, j))
    decreases |cities| - k
  {
    if k == |cities| then None
    else if Contains(loc, CityKey(cities, k)) then Some(k)
    else MatchFrom(cities, loc, k + 1)
  }

  /** The table position of the city a location is placed at, if any. */
  function FirstMatch(cities: CityTable, location: string): Option<nat> {
    MatchFrom(cities, Lower(location), 0)
  }

  /** The match ignores case: the location upper-cased, or lowercased, picks
      the same city. */
  lemma MatchIgnoresCase(cities: CityTable, location: string)
    ensures FirstMatch(cities, UpperAscii(location)) == FirstMatch(cities, location)
    ensures FirstMatch(cities, Lower(location)) == FirstMatch(cities, location)
  {
    LowerOfUpper(location);
    LowerIdempotent(location);
  }

  /** `random.uniform(a, b)`, which is `a + (b - a) * random()`, for the draw
      `u` of `random()`. */
  function Uniform(a: real, b: real, u: real): (r: real)
    requires 0.0 <= u < 1.0
    ensures a <= b ==> a <= r <= b
  {
    var d := b - a;
    var s := d * u;
    assert a <= b ==> 0.0 <= s <= d by {
      if a <= b { ScaleBelow(d, u); }
    }
    a + s
  }

  lemma ScaleBelow(d: real, u: real)
    requires d >= 0.0 && 0.0 <= u < 1.0
    ensures 0.0 <= d * u <= d
  {
  }

  /** The coordinates a location is placed at, for the two draws of `random()`
      made for its latitude and then its longitude. */
  function GeoSpec(cities: CityTable, location: string, u1: real, u2: real): (real, real)
    requires 0.0 <= u1 < 1.0 && 0.0 <= u2 < 1.0
  {
    match FirstMatch(cities, location)
    case Some(k) =>
      var c := cities[k].1;
      (c.0 + Uniform(-CityJitter, CityJitter, u1), c.1 + Uniform(-CityJitter, CityJitter, u2))
    case None =>
      (IndiaCentre.0 + Uniform(-CountryJitter, CountryJitter, u1),
       IndiaCentre.1 + Uniform(-CountryJitter, CountryJitter, u2))
  }

  /** A location naming a city is placed within the city jitter of the first
      such city's centre; any other within the country jitter of India's centre. */
  lemma GeoBounds(cities: CityTable, location: string, u1: real, u2: real)
    requires 0.0 <= u1 < 1.0 && 0.0 <= u2 < 1.0
    ensures var p := GeoSpec(cities, location, u1, u2); var m := FirstMatch(cities, location);
      && (m.Some? ==>
            && cities[m.value].1.0 - CityJitter <= p.0 <= cities[m.value].1.0 + CityJitter
            && cities[m.value].1.1 - CityJitter <= p.1 <= cities[m.value].1.1 + CityJitter)
      && (m.None? ==>
            && IndiaCentre.0 - CountryJitter <= p.0 <= IndiaCentre.0 + CountryJitter
            && IndiaCentre.1 - CountryJitter <= p.1 <= IndiaCentre.1 + CountryJitter)
  {
  }

  /** `get_geo_coords`: walks the table in order and returns at the first city
      whose lowercased name occurs in the lowercased location. */
  method GetGeoCoords(cities: CityTable, location: string, u1: real, u2: real) returns (lat: real, lng: real)
    requires 0.0 <= u1 < 1.0 && 0.0 <= u2 < 1.0
    ensures (lat, lng) == GeoSpec(cities, location, u1, u2)
  {
    var loc := Lower(location);
    var k := 0;
    while k < |cities|
      invariant 0 <= k <= |cities|
      invariant MatchFrom(cities, loc, k) == MatchFrom(cities, loc, 0)
    {
      var city, centre := cities[k].0, cities[k].1;
      if Contains(loc, Lower(city)) {
        lat := centre.0 + Uniform(-CityJitter, CityJitter, u1);
        lng := centre.1 + Uniform(-CityJitter, CityJitter, u2);
        return;
      }
      k := k + 1;
    }
    lat := IndiaCentre.0 + Uniform(-CountryJitter, CountryJitter, u1);
    lng := IndiaCentre.1 + Uniform(-CountryJitter, CountryJitter, u2);
  }

  /** A lowercase letter of `s` survives lowercasing. */
  lemma {:induction false} LowerKeeps(s: string, i: nat)
    requires i < |s| && 'a' <= s[i] <= 'z'
    ensures s[i] in Lower(s)
  {
    if i > 0 {
      LowerKeeps(s[1..], i - 1);
    }
  }

  /** The `k`-th known city's key holds the letter at position `i` of its
      name, so it does not occur in a location lacking that letter. */
  lemma LetterRulesOut(loc: string, k: nat, i: nat)
    requires k < |IndiaCities| && i < |IndiaCities[k].0|
    requires 'a' <= IndiaCities[k].0[i] <= 'z' && IndiaCities[k].0[i] !in loc
    ensures !Contains(loc, CityKey(IndiaCities, k))
  {
    LowerKeeps(IndiaCities[k].0, i);
    MissingChar(loc, CityKey(IndiaCities, k), IndiaCities[k].0[i]);
  }

  /** Delhi, Noida, Bangalore, Hyderabad and Pune hold an e, o, g, y or u. */
  lemma NoneOfFirstFive(loc: string)
    requires 'e' !in loc && 'o' !in loc && 'g' !in loc && 'y' !in loc && 'u' !in loc
    ensures forall k :: 0 <= k < 5 ==> !Contains(loc, CityKey(IndiaCities, k))
  {
    forall k | 0 <= k < 5 ensures !Contains(loc, CityKey(IndiaCities, k)) {
      LetterRulesOut(loc, k, if k == 2 then 3 else 1);
    }
  }

  /** Mumbai, Chennai, Gurgaon, Kolkata and Ahmedabad hold an o, u or h. */
  lemma NoneOfLastFive(loc: string)
    requires 'o' !in loc && 'u' !in loc && 'h' !in loc
    ensures forall k :: 5 <= k < 10 ==> !Contains(loc, CityKey(IndiaCities, k))
  {
    forall k | 5 <= k < 10 ensures !Contains(loc, CityKey(IndiaCities, k)) {
      LetterRulesOut(loc, k, 1);
    }
  }

  /** A location without any of the letters e, o, g, y, u and h names no
      known city. */
  lemma NoCityWithout(loc: string)
    requires 'e' !in loc && 'o' !in loc && 'g' !in loc
    requires 'y' !in loc && 'u' !in loc && 'h' !in loc
    ensures MatchFrom(IndiaCities, loc, 0) == None
  {
    NoneOfFirstFive(loc);
    NoneOfLastFive(loc);
  }

  /** The default location `India` names no known city. */
  lemma IndiaMatchesNothing()
    ensures FirstMatch(IndiaCities, "India") == None
  {
    IndiaLowered();
    NoCityWithout("india");
  }

  lemma IndiaLowered()
    ensures Lower("India") == "india"
  {
    assert Lower("a") == "a";
    assert Lower("ia") == "ia";
    assert Lower("dia") == "dia";
    assert Lower("ndia") == "ndia";
  }

  /** Delhi is tried first: a location naming Delhi is placed at Delhi,
      whatever else it names (Noida, say). */
  lemma DelhiFirst(location: string)
    requires Contains(Lower(location), "delhi")
    ensures FirstMatch(IndiaCities, location) == Some(0)
  {
    DelhiKey();
  }

  lemma DelhiKey()
    ensures CityKey(IndiaCities, 0) == "delhi"
  {
    var name := IndiaCities[0].0;
    assert name == "D" + "elhi";
    LowerAppend("D", "elhi");
    LowerOfLowercase("elhi");
  }

  /** Lowercasing leaves lowercase ASCII letters alone. */
  lemma {:induction false} LowerOfLowercase(s: string)
    requires forall i :: 0 <= i < |s| ==> 'a' <= s[i] <= 'z'
    ensures Lower(s) == s
  {
    if |s| > 0 {
      LowerOfLowercase(s[1..]);
    }
  }

  // ---------------------------------------------------------------- the CSV

  /** A CSV field as pandas reads it: `Missing` for a field it reads as NaN. */
  datatype Cell = Missing | Text(s: string)

  /** A `min_amount` field: empty, a number, or text that `float` cannot parse. */
  datatype AmountCell = NoAmount | Amount(v: real) | NotNumeric

  datatype CsvRow = CsvRow(title: Cell, company: Cell, location: Cell, salary: Cell, minAmount: AmountCell)

  /** The columns named in the file's header, and its rows. A row's field for
      a column the header lacks means nothing. */
  datatype CsvTable = CsvTable(columns: set<string>, rows: seq<CsvRow>)

  /** A float column value: a real, or one of the infinities that a division
      by zero gives. */
  datatype Float = Finite(r: real) | PosInf | NegInf

  /** One stored document. */
  datatype JobDoc = JobDoc(
    job_title: string, company_name: string, location: string,
    lat: real, lng: real, salary_string: string, job_weight: Float)

  /** `df.get(name).fillna(dflt).astype(str)`, with an absent column read as
      all-missing. */
  function TextColumn(t: CsvTable, name: string, field: CsvRow -> Cell, dflt: string): seq<string> {
    seq(|t.rows|, i requires 0 <= i < |t.rows| =>
      if name in t.columns && field(t.rows[i]).Text? then field(t.rows[i]).s else dflt)
  }

  function Titles(t: CsvTable): seq<string> { TextColumn(t, "title", (r: CsvRow) => r.title, "Untitled") }
  function Companies(t: CsvTable): seq<string> { TextColumn(t, "company", (r: CsvRow) => r.company, "Unknown") }
  function Locations(t: CsvTable): seq<string> { TextColumn(t, "location", (r: CsvRow) => r.location, "India") }
  function Salaries(t: CsvTable): seq<string> { TextColumn(t, "salary_string", (r: CsvRow) => r.salary, "") }

  // ---------------------------------------------------------------- weights

  /** `min_amt.max()`: the largest amount, skipping missing ones; `None` when
      there is none. */
  function MaxAmount(rows: seq<CsvRow>): (m: Option<real>)
    ensures m.None? <==> forall i :: 0 <= i < |rows| ==> !rows[i].minAmount.Amount?
    ensures m.Some? ==> exists i :: 0 <= i < |rows| && rows[i].minAmount == Amount(m.value)
    ensures m.Some? ==> forall i :: 0 <= i < |rows| && rows[i].minAmount.Amount? ==> rows[i].minAmount.v <= m.value
  {
    if |rows| == 0 then None
    else
      var rest := MaxAmount(rows[1..]);
      assert forall i :: 1 <= i < |rows| ==> rows[i] == rows[1..][i - 1];
      match rows[0].minAmount
      case Amount(v) =>
        if rest.None? || rest.value < v then Some(v) else rest
      case _ => rest
  }

  /** `(amount / max).fillna(0) * 0.5`: a missing amount, or 0 / 0, adds 0; a
      nonzero amount over a zero maximum adds an infinity. */
  function Increment(cell: AmountCell, max: Option<real>): (d: Float)
    ensures cell.NoAmount? ==> d == Finite(0.0)
  {
    match cell
    case Amount(v) =>
      if max.None? then Finite(0.0)
      else if max.value != 0.0 then Finite(v / max.value * 0.5)
      else if v > 0.0 then PosInf
      else if v < 0.0 then NegInf
      else Finite(0.0)
    case _ => Finite(0.0)
  }

  /** `weight + d` for a finite weight. */
  function Add(w: Float, d: Float): (r: Float)
    requires w.Finite?
    ensures d.Finite? <==> r.Finite?
    ensures d.Finite? ==> r.r == w.r + d.r
  {
    if d.Finite? then Finite(w.r + d.r) else d
  }

  /** `df["min_amount"].astype(float)` succeeds: the column exists and every
      field of it is a number or empty. */
  predicate AmountsConvert(t: CsvTable) {
    && "min_amount" in t.columns
    && forall i :: 0 <= i < |t.rows| ==> !t.rows[i].minAmount.NotNumeric?
  }

  /** The `job_weight` column after the boost, or the base 1.0 everywhere when
      the conversion raises. */
  function Weights(t: CsvTable): seq<Float> {
    if AmountsConvert(t) then
      var m := MaxAmount(t.rows);
      seq(|t.rows|, i requires 0 <= i < |t.rows| => Add(Finite(1.0), Increment(t.rows[i].minAmount, m)))
    else
      seq(|t.rows|, _ => Finite(1.0))
  }

  // ---------------------------------------------------------------- the load

  /** One `random()` draw per coordinate of every row, each in [0, 1). */
  predicate ValidDraws(t: CsvTable, draws: seq<(real, real)>) {
    && |draws| == |t.rows|
    && forall i :: 0 <= i < |draws| ==> 0.0 <= draws[i].0 < 1.0 && 0.0 <= draws[i].1 < 1.0
  }

  /** The documents the script stores, for the given draws. */
  function Docs(cities: CityTable, t: CsvTable, draws: seq<(real, real)>): seq<JobDoc>
    requires ValidDraws(t, draws)
  {
    var titles, companies, locations, salaries, weights :=
      Titles(t), Companies(t), Locations(t), Salaries(t), Weights(t);
    seq(|t.rows|, i requires 0 <= i < |t.rows| =>
      var p := GeoSpec(cities, locations[i], draws[i].0, draws[i].1);
      JobDoc(titles[i], companies[i], locations[i], p.0, p.1, salaries[i], weights[i]))
  }

  /** The loop over the location column: one call of `get_geo_coords` per
      row, in row order, its results appended to `lats` and `lngs`. */
  method PlaceAll(cities: CityTable, locations: seq<string>, draws: seq<(real, real)>) returns (lats: seq<real>, lngs: seq<real>)
    requires |draws| == |locations|
    requires forall i :: 0 <= i < |draws| ==> 0.0 <= draws[i].0 < 1.0 && 0.0 <= draws[i].1 < 1.0
    ensures |lats| == |lngs| == |locations|
    ensures forall j :: 0 <= j < |locations| ==> (lats[j], lngs[j]) == GeoSpec(cities, locations[j], draws[j].0, draws[j].1)
  {
    lats, lngs := [], [];
    var i := 0;
    while i < |locations|
      invariant 0 <= i <= |locations|
      invariant |lats| == |lngs| == i
      invariant forall j :: 0 <= j < i ==> (lats[j], lngs[j]) == GeoSpec(cities, locations[j], draws[j].0, draws[j].1)
    {
      var lat, lng := GetGeoCoords(cities, locations[i], draws[i].0, draws[i].1);
      lats := lats + [lat];
      lngs := lngs + [lng];
      i := i + 1;
    }
  }

  /** The script body: fill the text columns, place every location, set every
      weight to 1.0 and, when the amounts convert, add the salary boost. An
      absent text column is read as all-missing. */
  method Load(cities: CityTable, t: CsvTable, draws: seq<(real, real)>) returns (docs: seq<JobDoc>)
    requires ValidDraws(t, draws)
    ensures docs == Docs(cities, t, draws)
  {
    var n := |t.rows|;
    var titles, companies, locations, salaries := Titles(t), Companies(t), Locations(t), Salaries(t);
    var lats, lngs := PlaceAll(cities, locations, draws);
    var weights: seq<Float> := seq(n, _ => Finite(1.0));
    if AmountsConvert(t) {
      var m := MaxAmount(t.rows);
      weights := seq(n, j requires 0 <= j < n => Add(weights[j], Increment(t.rows[j].minAmount, m)));
    }
    assert weights == Weights(t);
    docs := seq(n, j requires 0 <= j < n =>
      JobDoc(titles[j], companies[j], locations[j], lats[j], lngs[j], salaries[j], weights[j]));
  }

  // ---------------------------------------------------------------- properties

  /** A missing field (or an absent column) gets its default; a present field
      is kept as it is. */
  lemma DefaultsApplied(cities: CityTable, t: CsvTable, draws: seq<(real, real)>, i: nat)
    requires ValidDraws(t, draws) && i < |t.rows|
    ensures var d, r := Docs(cities, t, draws)[i], t.rows[i];
      && (r.title.Missing? || "title" !in t.columns ==> d.job_title == "Untitled")
      && (r.company.Missing? || "company" !in t.columns ==> d.company_name == "Unknown")
      && (r.location.Missing? || "location" !in t.columns ==> d.location == "India")
      && (r.salary.Missing? || "salary_string" !in t.columns ==> d.salary_string == "")
      && (r.title.Text? && "title" in t.columns ==> d.job_title == r.title.s)
      && (r.company.Text? && "company" in t.columns ==> d.company_name == r.company.s)
      && (r.location.Text? && "location" in t.columns ==> d.location == r.location.s)
      && (r.salary.Text? && "salary_string" in t.columns ==> d.salary_string == r.salary.s)
  {
  }

  /** A job without a location is placed within one degree of India's centre,
      since its default `India` names no known city. */
  lemma MissingLocationNearIndia(t: CsvTable, draws: seq<(real, real)>, i: nat)
    requires ValidDraws(t, draws) && i < |t.rows|
    requires t.rows[i].location.Missing? || "location" !in t.columns
    ensures var d := Docs(IndiaCities, t, draws)[i];
      && IndiaCentre.0 - CountryJitter <= d.lat <= IndiaCentre.0 + CountryJitter
      && IndiaCentre.1 - CountryJitter <= d.lng <= IndiaCentre.1 + CountryJitter
  {
    IndiaMatchesNothing();
    assert Locations(t)[i] == "India";
    GeoBounds(IndiaCities, "India", draws[i].0, draws[i].1);
  }

  /** A located job sits near its city: within the city jitter of the first
      city its location names. */
  lemma LocatedNearCity(cities: CityTable, t: CsvTable, draws: seq<(real, real)>, i: nat)
    requires ValidDraws(t, draws) && i < |t.rows|
    requires FirstMatch(cities, Locations(t)[i]).Some?
    ensures var d, c := Docs(cities, t, draws)[i], cities[FirstMatch(cities, Locations(t)[i]).value].1;
      && c.0 - CityJitter <= d.lat <= c.0 + CityJitter
      && c.1 - CityJitter <= d.lng <= c.1 + CityJitter
  {
    GeoBounds(cities, Locations(t)[i], draws[i].0, draws[i].1);
  }

  /** With non-negative amounts and a positive maximum, every weight lies in
      [1.0, 1.5], a job without an amount keeps 1.0, and a job with the
      largest amount gets 1.5. */
  lemma WeightsInRange(t: CsvTable, i: nat)
    requires AmountsConvert(t) && i < |t.rows|
    requires forall j :: 0 <= j < |t.rows| && t.rows[j].minAmount.Amount? ==> t.rows[j].minAmount.v >= 0.0
    requires MaxAmount(t.rows).Some? && MaxAmount(t.rows).value > 0.0
    ensures var w := Weights(t)[i]; w.Finite? && 1.0 <= w.r <= 1.5
    ensures t.rows[i].minAmount.NoAmount? ==> Weights(t)[i] == Finite(1.0)
    ensures t.rows[i].minAmount == Amount(MaxAmount(t.rows).value) ==> Weights(t)[i] == Finite(1.5)
  {
    var m := MaxAmount(t.rows).value;
    if t.rows[i].minAmount.Amount? {
      var v := t.rows[i].minAmount.v;
      assert 0.0 <= v <= m;
      QuotientInUnit(v, m);
    }
  }

  lemma QuotientInUnit(v: real, m: real)
    requires 0.0 <= v <= m && m > 0.0
    ensures 0.0 <= v / m <= 1.0
    ensures v == m ==> v / m == 1.0
  {
    assert v / m * m == v;
  }

  /** When `min_amount` is absent or holds text that is not a number, the
      conversion raises, the boost is skipped and every weight stays 1.0. */
  lemma WeightsOnConversionFailure(t: CsvTable)
    requires "min_amount" !in t.columns || exists j :: 0 <= j < |t.rows| && t.rows[j].minAmount.NotNumeric?
    ensures forall i :: 0 <= i < |t.rows| ==> Weights(t)[i] == Finite(1.0)
  {
  }

  // ---------------------------------------------------------------- as written

  /** What stops the script. */
  datatype LoadError = AttributeError(column: string)

  /** The script as written: for a column the CSV lacks, `df.get(name, "")`
      returns the string `""`, which has no `fillna`, so the script stops
      before storing anything. */
  function LoadAsWritten(cities: CityTable, t: CsvTable, draws: seq<(real, real)>): (r: Result<seq<JobDoc>, LoadError>)
    requires ValidDraws(t, draws)
    ensures r.Ok? <==> {"title", "company", "location", "salary_string"} <= t.columns
    ensures r.Ok? ==> r.value == Docs(cities, t, draws)
  {
    if "title" !in t.columns then Err(AttributeError("title"))
    else if "company" !in t.columns then Err(AttributeError("company"))
    else if "location" !in t.columns then Err(AttributeError("location"))
    else if "salary_string" !in t.columns then Err(AttributeError("salary_string"))
    else Ok(Docs(cities, t, draws))
  }

  /** A scrape in which no description yielded a salary writes a CSV without a
      `salary_string` column: the script as written stops on it, while the
      defaulting rule gives every job an empty salary. */
  lemma NoSalaryColumnStopsLoad()
    ensures var t := CsvTable({"title", "company", "location", "min_amount"},
                              [CsvRow(Text("Engineer"), Text("Acme"), Text("Pune"), Missing, NoAmount)]);
      && LoadAsWritten(IndiaCities, t, [(0.5, 0.5)]) == Err(AttributeError("salary_string"))
      && Docs(IndiaCities, t, [(0.5, 0.5)])[0].salary_string == ""
  {
    var t := CsvTable({"title", "company", "location", "min_amount"},
                      [CsvRow(Text("Engineer"), Text("Acme"), Text("Pune"), Missing, NoAmount)]);
    assert "salary_string" !in t.columns;
    DefaultsApplied(IndiaCities, t, [(0.5, 0.5)], 0);
  }
}
