/** The migration that rewrites text RGs as numbers: the digits of the text
    are kept, everything else stripped, and the result parsed in base 10. */
module ConvertRgToNumber {
  import opened Common
  import opened Schema
  import opened Store
  import opened Text
  import opened Keys
  import PersonnelRecords

  datatype Outcome = Outcome(
    success: bool,
    message: string,
    totalPersonnel: nat,
    converted: nat,
    skipped: nat,
    errors: seq<string>)

  /** A text RG with at least one digit: the migration rewrites it. */
  predicate Convertible(d: Doc<Personnel>) {
    d.fields.rg.RgText? && DigitsOf(d.fields.rg.text) != []
  }

  /** A text RG with no digit: `parseInt` yields NaN and the person is reported. */
  predicate Invalid(d: Doc<Personnel>) {
    d.fields.rg.RgText? && DigitsOf(d.fields.rg.text) == []
  }

  /** The person after the migration: a convertible RG becomes the number its
      digits spell; nothing else changes. */
  function Converted(d: Doc<Personnel>): (r: Doc<Personnel>)
    ensures r.id == d.id
    ensures Convertible(d) ==> r.fields == d.fields.(rg := RgNumber(ParseDecimal(DigitsOf(d.fields.rg.text))))
    ensures !Convertible(d) ==> r == d
    ensures !Convertible(r)
  {
    if Convertible(d) then Doc(d.id, d.fields.(rg := RgNumber(ParseDecimal(DigitsOf(d.fields.rg.text)))))
    else d
  }

  /** The report line for a person whose RG has no digit. */
  function ErrorFor(d: Doc<Personnel>): string {
    "Person " + NatToString(d.id) + " has invalid RG: " + PersonnelRecords.RgString(d.fields.rg)
  }

  function Message(converted: nat, skipped: nat): string {
    "Converted " + NatToString(converted) + " RGs to number, skipped " + NatToString(skipped)
  }

  /** `convertRgToNumber`: visits every person once; converts the convertible
      RGs, reports the ones without digits, and skips numbers. */
  method Run(db: Db) returns (r: Outcome)
    requires db.Valid()
    modifies db`personnel
    ensures db.Valid()
    ensures db.personnel == Map(old(db.personnel), Converted)
    ensures r.totalPersonnel == |old(db.personnel)| && r.converted + r.skipped == r.totalPersonnel
    ensures r.converted == |Filter(old(db.personnel), Convertible)|
    ensures r.errors == Map(Filter(old(db.personnel), Invalid), ErrorFor)
    ensures r.success <==> r.errors == []
    ensures r.message == Message(r.converted, r.skipped)
  {
    var people := db.personnel;
    var converted, skipped, errors := VisitAll(db, people);
    Finish(people, db.nextId);
    r := Outcome(errors == [], Message(converted, skipped), |people|, converted, skipped, errors);
  }

  /** The loop over the snapshot of the table taken before it starts. */
  method VisitAll(db: Db, people: seq<Doc<Personnel>>) returns (converted: nat, skipped: nat, errors: seq<string>)
    requires WellFormed(people, db.nextId) && db.personnel == people
    modifies db`personnel
    ensures db.personnel == Rewritten(people, Converted, |people|)
    ensures converted == ConvertedCount(people[..|people|]) && converted + skipped == |people|
    ensures errors == Errors(people[..|people|])
  {
    converted, skipped, errors := 0, 0, [];
    for i := 0 to |people|
      invariant db.personnel == Rewritten(people, Converted, i)
      invariant converted == ConvertedCount(people[..i]) && converted + skipped == i
      invariant errors == Errors(people[..i])
    {
      converted, skipped, errors := Visit(db, people, i, converted, skipped, errors);
    }
  }

  /** One turn of the loop: converts person `i` when it can and reports it
      when its text RG has no digit, advancing the tallies by that person. */
  method Visit(db: Db, people: seq<Doc<Personnel>>, i: nat, converted: nat, skipped: nat, errors: seq<string>)
    returns (converted': nat, skipped': nat, errors': seq<string>)
    requires WellFormed(people, db.nextId) && i < |people|
    requires db.personnel == Rewritten(people, Converted, i)
    requires converted == ConvertedCount(people[..i]) && converted + skipped == i
    requires errors == Errors(people[..i])
    modifies db`personnel
    ensures db.personnel == Rewritten(people, Converted, i + 1)
    ensures converted' == ConvertedCount(people[..i + 1]) && converted' + skipped' == i + 1
    ensures errors' == Errors(people[..i + 1])
  {
    var person := people[i];
    RewriteStep(people, Converted, i, db.nextId);
    CountStep(people, i);
    converted', skipped', errors' := converted, skipped + 1, errors;
    if person.fields.rg.RgText? {
      var digits := DigitsOf(person.fields.rg.text);
      if digits == [] {
        errors' := errors + [ErrorFor(person)];
        return;
      }
      db.personnel := Patch(db.personnel, person.id, person.fields.(rg := RgNumber(ParseDecimal(digits))));
      converted', skipped' := converted + 1, skipped;
    }
  }

  /** How many of the people the run converts, counted as the loop does. */
  function ConvertedCount(s: seq<Doc<Personnel>>): nat {
    if s == [] then 0
    else ConvertedCount(s[..|s| - 1]) + if Convertible(s[|s| - 1]) then 1 else 0
  }

  /** The report lines the run produces for the people, in order. */
  function Errors(s: seq<Doc<Personnel>>): seq<string> {
    if s == [] then []
    else Errors(s[..|s| - 1]) + if Invalid(s[|s| - 1]) then [ErrorFor(s[|s| - 1])] else []
  }

  /** The loop's tallies are the filters of the whole list: the converted
      count is the number of convertible people, and the report lines are
      those of the invalid people, in order. */
  lemma {:induction false} TalliesAreFilters(s: seq<Doc<Personnel>>)
    ensures ConvertedCount(s) == |Filter(s, Convertible)|
    ensures Errors(s) == Map(Filter(s, Invalid), ErrorFor)
  {
    if s != [] {
      var s', x := s[..|s| - 1], s[|s| - 1];
      TalliesAreFilters(s');
      var f := Filter(s', Invalid);
      if Invalid(x) {
        assert Filter(s, Invalid) == f + [x];
        assert (f + [x])[..|f|] == f;
      }
    }
  }

  /** What the loop has built once it has visited everybody. */
  lemma Finish(people: seq<Doc<Personnel>>, n: nat)
    requires WellFormed(people, n)
    ensures Rewritten(people, Converted, |people|) == Map(people, Converted)
    ensures WellFormed(Map(people, Converted), n)
    ensures ConvertedCount(people[..|people|]) == |Filter(people, Convertible)|
    ensures Errors(people[..|people|]) == Map(Filter(people, Invalid), ErrorFor)
  {
    RewrittenWellFormed(people, Converted, |people|, n);
    RewrittenAll(people, Converted);
    assert people[..|people|] == people;
    TalliesAreFilters(people);
  }

  /** The tallies after one more person. */
  lemma CountStep(people: seq<Doc<Personnel>>, i: nat)
    requires i < |people|
    ensures ConvertedCount(people[..i + 1]) == ConvertedCount(people[..i]) + if Convertible(people[i]) then 1 else 0
    ensures Errors(people[..i + 1]) == Errors(people[..i]) + if Invalid(people[i]) then [ErrorFor(people[i])] else []
  {
    assert people[..i + 1][..i] == people[..i];
  }

  /** A second run converts nothing and changes nothing. */
  lemma SecondRunConvertsNothing(t: seq<Doc<Personnel>>)
    ensures Filter(Map(t, Converted), Convertible) == []
    ensures Map(Map(t, Converted), Converted) == Map(t, Converted)
  {
    FilterNone(Map(t, Converted), Convertible);
  }

  /** Two people whose RGs differ before the run: the text "1" and the number 1. */
  const MERGED: seq<Doc<Personnel>> := [
    Doc(0, Personnel("Sd", RgText("1"), "A", true, 0, 0)),
    Doc(1, Personnel("Sd", RgNumber(1), "B", true, 0, 0))
  ]

  /** The run can give two people the same RG: RGs unique before are not after. */
  lemma ConversionMayMergeRgs()
    ensures Unique(MERGED, PersonnelRecords.RgOf)
    ensures !Unique(Map(MERGED, Converted), PersonnelRecords.RgOf)
  {
    assert DigitsOf("1") == "1" by {
      assert DigitsOf("1") == DigitsOf("1"[..0]) + "1";
    }
    assert ParseDecimal("1") == 1 by {
      assert "1"[..0] == [];
    }
    var u := Map(MERGED, Converted);
    assert u[0].fields.rg == RgNumber(1) == u[1].fields.rg;
  }
}
