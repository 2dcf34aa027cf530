/** The badge colour of a vehicle type: the type name, upper-cased, is tested
    for a fixed list of substrings in order, and the first hit picks one of
    seven class strings. */
module TypeColor {
  import opened Common
  import opened Text

  datatype Palette = Red | Orange | Cyan | Indigo | Blue | Yellow | Slate

  /** The Tailwind colour name of each palette entry. */
  function Hue(p: Palette): string {
    match p
    case Red => "red"
    case Orange => "orange"
    case Cyan => "cyan"
    case Indigo => "indigo"
    case Blue => "blue"
    case Yellow => "yellow"
    case Slate => "slate"
  }

  /** What follows the background hue in the class string: the background,
      text and border shades, then their dark-mode variants. Slate alone takes
      a solid dark background (800) and a lighter dark border (700). */
  function Shades(p: Palette): string {
    var h := Hue(p);
    var darkBg := if p == Slate then "-800" else "-900/30";
    var darkBorder := if p == Slate then "-700" else "-800";
    "-100 text-" + h + "-700 border-" + h + "-200 dark:bg-" + h + darkBg +
    " dark:text-" + h + "-300 dark:border-" + h + darkBorder
  }

  /** The class string each colour stands for. */
  function Classes(p: Palette): string {
    "bg-" + Hue(p) + Shades(p)
  }

  /** `type?.toUpperCase() || ""`: a missing type is the empty string. */
  function Normalized(t: Option<string>): (r: string)
    ensures t.None? ==> r == []
    ensures t.Some? ==> r == Upper(t.value)
  {
    match t
    case None => []
    case Some(s) => Upper(s)
  }

  /** The words tested for each colour, in the order they are tested. */
  const RULES: seq<(Palette, seq<string>)> := [
    (Red, ["UR", "RESGATE"]),
    (Orange, ["ABT"]),
    (Cyan, ["ASA", "SALVAMENTO"]),
    (Indigo, ["AV", "VISTORIA"]),
    (Blue, ["TP", "TRANSPORTE"]),
    (Yellow, ["ABS"])
  ]

  /** The name contains one of the words. */
  ghost predicate Mentions(n: string, words: seq<string>) {
    exists w :: w in words && Contains(n, w)
  }

  /** The colour of the first rule with a word in the name, Slate when none
      has one: the specification the test chain is checked against. */
  ghost function FirstRule(n: string, rules: seq<(Palette, seq<string>)>): Palette {
    if rules == [] then Slate
    else if Mentions(n, rules[0].1) then rules[0].0
    else FirstRule(n, rules[1..])
  }

  /** The chain of `includes` tests on the normalized name. */
  function Pick(n: string): Palette {
    if Includes(n, "UR") || Includes(n, "RESGATE") then Red
    else if Includes(n, "ABT") then Orange
    else if Includes(n, "ASA") || Includes(n, "SALVAMENTO") then Cyan
    else if Includes(n, "AV") || Includes(n, "VISTORIA") then Indigo
    else if Includes(n, "TP") || Includes(n, "TRANSPORTE") then Blue
    else if Includes(n, "ABS") then Yellow
    else Slate
  }

  /** A name mentions one word exactly when it contains it. */
  lemma MentionsOne(n: string, a: string)
    ensures Mentions(n, [a]) <==> Contains(n, a)
  {
    if Contains(n, a) {
      assert a in [a];
    }
  }

  /** A name mentions one of two words exactly when it contains either. */
  lemma MentionsTwo(n: string, a: string, b: string)
    ensures Mentions(n, [a, b]) <==> Contains(n, a) || Contains(n, b)
  {
    if Contains(n, a) {
      assert a in [a, b];
    } else if Contains(n, b) {
      assert b in [a, b];
    }
  }

  /** The rule list read as a chain of tests, first rule first. */
  lemma RulesInOrder(n: string)
    ensures FirstRule(n, RULES) ==
      if Mentions(n, ["UR", "RESGATE"]) then Red
      else if Mentions(n, ["ABT"]) then Orange
      else if Mentions(n, ["ASA", "SALVAMENTO"]) then Cyan
      else if Mentions(n, ["AV", "VISTORIA"]) then Indigo
      else if Mentions(n, ["TP", "TRANSPORTE"]) then Blue
      else if Mentions(n, ["ABS"]) then Yellow
      else Slate
  {
    var t6: seq<(Palette, seq<string>)> := [];
    var t5 := [(Yellow, ["ABS"])] + t6;
    var t4 := [(Blue, ["TP", "TRANSPORTE"])] + t5;
    var t3 := [(Indigo, ["AV", "VISTORIA"])] + t4;
    var t2 := [(Cyan, ["ASA", "SALVAMENTO"])] + t3;
    var t1 := [(Orange, ["ABT"])] + t2;
    assert RULES == [(Red, ["UR", "RESGATE"])] + t1;
    assert FirstRule(n, t5) == if Mentions(n, ["ABS"]) then Yellow else Slate by {
      assert t5[1..] == t6;
    }
    assert t4[1..] == t5 && t3[1..] == t4 && t2[1..] == t3 && t1[1..] == t2 && RULES[1..] == t1;
    assert FirstRule(n, t4) == if Mentions(n, ["TP", "TRANSPORTE"]) then Blue else FirstRule(n, t5);
    assert FirstRule(n, t3) == if Mentions(n, ["AV", "VISTORIA"]) then Indigo else FirstRule(n, t4);
    assert FirstRule(n, t2) == if Mentions(n, ["ASA", "SALVAMENTO"]) then Cyan else FirstRule(n, t3);
    assert FirstRule(n, t1) == if Mentions(n, ["ABT"]) then Orange else FirstRule(n, t2);
  }

  /** The test chain picks the colour of the first rule that matches. */
  lemma PickFollowsRules(n: string)
    ensures Pick(n) == FirstRule(n, RULES)
  {
    RulesInOrder(n);
    MentionsTwo(n, "UR", "RESGATE");
    MentionsOne(n, "ABT");
    MentionsTwo(n, "ASA", "SALVAMENTO");
    MentionsTwo(n, "AV", "VISTORIA");
    MentionsTwo(n, "TP", "TRANSPORTE");
    MentionsOne(n, "ABS");
  }

  /** The colour `getVehicleTypeColor` chooses for a type name. */
  function ColorOf(t: Option<string>): (p: Palette)
    ensures p == FirstRule(Normalized(t), RULES)
  {
    PickFollowsRules(Normalized(t));
    Pick(Normalized(t))
  }

  /** The seven hues start with seven different letters. */
  lemma HueInitials(p: Palette, q: Palette)
    requires p != q
    ensures |Hue(p)| > 0 && |Hue(q)| > 0 && Hue(p)[0] != Hue(q)[0]
  {
  }

  /** No two colours share a class string: the letter after "bg-" is the
      hue's initial. */
  lemma ClassesDistinct(p: Palette, q: Palette)
    requires p != q
    ensures Classes(p) != Classes(q)
  {
    HueInitials(p, q);
    var bg := "bg-";
    assert Classes(p)[3] == (bg + Hue(p) + Shades(p))[|bg|] == Hue(p)[0];
    assert Classes(q)[3] == (bg + Hue(q) + Shades(q))[|bg|] == Hue(q)[0];
  }

  /** `getVehicleTypeColor`: the class string of the first rule the upper-cased
      name matches; two names get the same string exactly when they get the
      same colour. */
  function VehicleTypeColor(t: Option<string>): (r: string)
    ensures r == Classes(FirstRule(Normalized(t), RULES))
    ensures forall p :: Classes(p) == r <==> p == ColorOf(t)
  {
    forall p | p != ColorOf(t) ensures Classes(p) != Classes(ColorOf(t)) {
      ClassesDistinct(p, ColorOf(t));
    }
    Classes(ColorOf(t))
  }

  /** Upper-casing twice is upper-casing once. */
  lemma UpperIdempotent(s: string)
    ensures Upper(Upper(s)) == Upper(s)
  {
  }

  /** Upper-casing forgets the case the name was written in. */
  lemma UpperOfLower(s: string)
    ensures Upper(Lower(s)) == Upper(s)
  {
    assert forall k :: 0 <= k < |s| ==> UpperChar(LowerChar(s[k])) == UpperChar(s[k]);
  }

  /** The colour depends only on the upper-cased name: the case of the input
      does not matter. */
  lemma CaseInsensitive(s: string)
    ensures ColorOf(Some(s)) == ColorOf(Some(Upper(s)))
    ensures ColorOf(Some(s)) == ColorOf(Some(Lower(s)))
  {
    UpperIdempotent(s);
    UpperOfLower(s);
  }

  /** A word with a letter the name lacks does not occur in the name. */
  lemma MissingLetter(s: string, sub: string, c: char)
    requires c in sub && c !in s
    ensures !Contains(s, sub)
  {
  }

  /** A name without lower-case letters is its own upper-case form. */
  lemma UpperFixed(s: string)
    requires forall k :: 0 <= k < |s| ==> !('a' <= s[k] <= 'z')
    ensures Upper(s) == s
  {
  }

  /** No type and the empty type both get the default colour. */
  lemma MissingIsSlate()
    ensures ColorOf(None) == Slate && ColorOf(Some("")) == Slate
  {
    UpperFixed("");
    assert Pick("") == Slate;
  }

  /** The first rule wins: a name with "UR" is red whatever else it holds,
      "ABT" among them. */
  lemma UrWins(s: string)
    requires Contains(Upper(s), "UR")
    ensures ColorOf(Some(s)) == Red
  {
    assert Pick(Upper(s)) == Red;
  }

  /** The colours of the five seeded types; "ABTS" is orange through the
      "ABT" test. */
  lemma SeededColors()
    ensures ColorOf(Some("UR")) == Red && ColorOf(Some("ABT")) == Orange
    ensures ColorOf(Some("ABTS")) == Orange && ColorOf(Some("ASA")) == Cyan
    ensures ColorOf(Some("AV")) == Indigo
  {
    UpperFixed("UR");
    UpperFixed("ABT");
    UpperFixed("ABTS");
    UpperFixed("ASA");
    UpperFixed("AV");
    SeededPicks();
  }

  /** The test chain on the five seeded names. */
  lemma SeededPicks()
    ensures Pick("UR") == Red && Pick("ABT") == Orange && Pick("ABTS") == Orange
    ensures Pick("ASA") == Cyan && Pick("AV") == Indigo
  {
    assert OccursAt("UR", "UR", 0);
    assert Pick("UR") == Red;
    MissingLetter("ABT", "UR", 'U');
    MissingLetter("ABT", "RESGATE", 'G');
    assert OccursAt("ABT", "ABT", 0);
    assert Pick("ABT") == Orange;
    MissingLetter("ABTS", "UR", 'U');
    MissingLetter("ABTS", "RESGATE", 'G');
    assert OccursAt("ABTS", "ABT", 0);
    assert Pick("ABTS") == Orange;
    MissingLetter("ASA", "UR", 'U');
    MissingLetter("ASA", "RESGATE", 'G');
    MissingLetter("ASA", "ABT", 'B');
    assert OccursAt("ASA", "ASA", 0);
    assert Pick("ASA") == Cyan;
    MissingLetter("AV", "UR", 'U');
    MissingLetter("AV", "RESGATE", 'G');
    MissingLetter("AV", "ABT", 'B');
    MissingLetter("AV", "ASA", 'S');
    MissingLetter("AV", "SALVAMENTO", 'S');
    assert OccursAt("AV", "AV", 0);
    assert Pick("AV") == Indigo;
  }
}
