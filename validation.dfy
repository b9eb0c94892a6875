/**
 * The web application's check of an activity form before it is sent to the
 * backend: every field is tested, and the names of the failing ones are
 * reported in a fixed order in one error message.
 */
module Validation {
  import opened Ledger

  /** An activity as the web application holds it. */
  datatype ActivityForm = ActivityForm(id: string, name: string, user: string, points: int, goal: int, typ: string)

  /** The names of the fields, in the order the check visits them. */
  const FieldOrder: seq<string> := ["name", "user", "points", "goal", "type"]

  /** The lower-case type names the check accepts. */
  const TypeNames: seq<string> := ["daily", "weekly", "monthly", "yearly"]

  /**
   * The lower-case mapping of one character, as far as it can produce a
   * lower-case ASCII letter: the ASCII capitals, KELVIN SIGN (U+212A) to 'k'
   * and LATIN CAPITAL LETTER I WITH DOT ABOVE (U+0130) to 'i'. Every other
   * character is left as it is.
   */
  function LowerRune(c: char): (r: char)
    ensures 'A' <= c <= 'Z' ==> r as int == c as int + 32
    ensures c == 'K' ==> r == 'k'
    ensures c == 'İ' ==> r == 'i'
    ensures !('A' <= c <= 'Z') && c != 'K' && c != 'İ' ==> r == c
  {
    if 'A' <= c <= 'Z' then (c as int + 32) as char
    else if c == 'K' then 'k'
    else if c == 'İ' then 'i'
    else c
  }

  /** A string with every character lower-cased. */
  function Lower(s: string): (r: string)
    ensures |r| == |s| && forall i :: 0 <= i < |s| ==> r[i] == LowerRune(s[i])
  {
    seq(|s|, i requires 0 <= i < |s| => LowerRune(s[i]))
  }

  /** The type test: the type is set and, lower-cased, is one of the four periods. */
  predicate KnownType(typ: string)
  {
    typ != "" && Lower(typ) in TypeNames
  }

  /** The failing fields of a, in the order the check visits them. */
  function InvalidFields(a: ActivityForm): (fields: seq<string>)
    ensures forall f :: f in fields ==> f in FieldOrder
  {
    (if a.name == "" then ["name"] else []) +
    (if a.user == "" then ["user"] else []) +
    (if a.points < 1 then ["points"] else []) +
    (if a.goal < 1 then ["goal"] else []) +
    (if !KnownType(a.typ) then ["type"] else [])
  }

  /** The elements of parts with sep between each two. */
  function Join(parts: seq<string>, sep: string): (r: string)
    ensures parts == [] ==> r == ""
    ensures |parts| == 1 ==> r == parts[0]
    decreases |parts|
  {
    if parts == [] then ""
    else if |parts| == 1 then parts[0]
    else parts[0] + sep + Join(parts[1..], sep)
  }

  /** Whether the form passes every check. */
  predicate Acceptable(a: ActivityForm)
  {
    a.name != "" && a.user != "" && a.points >= 1 && a.goal >= 1 && KnownType(a.typ)
  }

  /**
   * The check: None exactly when every field is acceptable; otherwise the
   * message "Invalid request: " followed by the failing fields, joined with
   * ", ". The form itself is a value and is left as it is.
   */
  method Validate(a: ActivityForm) returns (err: Option<string>)
    ensures err.None? <==> Acceptable(a)
    ensures err.Some? ==> err.value == "Invalid request: " + Join(InvalidFields(a), ", ")
  {
    var fields: seq<string> := [];
    if a.name == "" {
      fields := fields + ["name"];
    }
    assert fields == if a.name == "" then ["name"] else [];
    if a.user == "" {
      fields := fields + ["user"];
    }
    assert fields == (if a.name == "" then ["name"] else []) + (if a.user == "" then ["user"] else []);
    if a.points < 1 {
      fields := fields + ["points"];
    }
    if a.goal < 1 {
      fields := fields + ["goal"];
    }
    ghost var checked := fields;
    assert checked == (if a.name == "" then ["name"] else []) + (if a.user == "" then ["user"] else []) +
      (if a.points < 1 then ["points"] else []) + (if a.goal < 1 then ["goal"] else []);
    if a.typ == "" || Lower(a.typ) !in TypeNames {
      fields := fields + ["type"];
    }
    assert fields == checked + if !KnownType(a.typ) then ["type"] else [];
    if |fields| > 0 {
      err := Some("Invalid request: " + Join(fields, ", "));
    } else {
      err := None;
    }
  }

  /** Each field is reported exactly when its own test fails. */
  lemma InvalidFieldsExact(a: ActivityForm)
    ensures "name" in InvalidFields(a) <==> a.name == ""
    ensures "user" in InvalidFields(a) <==> a.user == ""
    ensures "points" in InvalidFields(a) <==> a.points < 1
    ensures "goal" in InvalidFields(a) <==> a.goal < 1
    ensures "type" in InvalidFields(a) <==> !KnownType(a.typ)
  {
    FieldNamesDiffer();
    var known := KnownType(a.typ);
    var front := (if a.name == "" then ["name"] else []) +
      (if a.user == "" then ["user"] else []) +
      (if a.points < 1 then ["points"] else []) +
      (if a.goal < 1 then ["goal"] else []);
    assert InvalidFields(a) == front + (if !known then ["type"] else []);
    assert "type" !in front;
  }

  /** No field is reported exactly when the form passes every check. */
  lemma NoInvalidFieldsExact(a: ActivityForm)
    ensures InvalidFields(a) == [] <==> Acceptable(a)
  {
  }

  /** The five field names are pairwise different. */
  lemma FieldNamesDiffer()
    ensures "name" != "user" && "name" != "points" && "name" != "goal" && "name" != "type"
    ensures "user" != "points" && "user" != "goal" && "user" != "type"
    ensures "points" != "goal" && "points" != "type" && "goal" != "type"
  {
    assert "name"[0] == 'n' && "user"[0] == 'u' && "points"[0] == 'p' && "goal"[0] == 'g' && "type"[0] == 't';
  }

  /** The position of a field name in the check's order. */
  function Rank(f: string): (r: int)
    ensures f in FieldOrder ==> 0 <= r < |FieldOrder| && FieldOrder[r] == f
  {
    if f == "name" then 0
    else if f == "user" then 1
    else if f == "points" then 2
    else if f == "goal" then 3
    else if f == "type" then 4
    else -1
  }

  /** The failing fields come in the check's order, each at most once. */
  lemma InvalidFieldsOrdered(a: ActivityForm)
    ensures forall i, j :: 0 <= i < j < |InvalidFields(a)| ==> Rank(InvalidFields(a)[i]) < Rank(InvalidFields(a)[j])
  {
  }

  /** The type test ignores case: "Daily" passes, the empty type fails. */
  /**
   * The type test in general: a type passes exactly when its lower-case form
   * is one of the four period names, so two spellings with the same
   * lower-case form pass or fail together; the empty type never passes.
   */
  lemma KnownTypeByLowerCase(t: string, u: string)
    ensures KnownType(t) <==> Lower(t) in {"daily", "weekly", "monthly", "yearly"}
    ensures Lower(t) == Lower(u) ==> (KnownType(t) <==> KnownType(u))
    ensures KnownType(t) ==> 5 <= |t| <= 7
  {
    if t == "" {
      assert Lower(t) == [];
    }
    if u == "" {
      assert Lower(u) == [];
    }
  }

  lemma TypeIgnoresCase()
    ensures KnownType("Daily") && KnownType("WEEKLY")
    ensures !KnownType("")
  {
    assert Lower("Daily") == "daily";
    assert Lower("WEEKLY") == "weekly";
  }

  /** Lower-casing also maps the Kelvin sign to 'k', so "weeKly" passes as a weekly type. */
  lemma KelvinSignAccepted()
    ensures KnownType("weeKly")
  {
    assert Lower("weeKly") == "weekly";
  }

  /** A form with every field wrong reports all five, in order. */
  lemma AllFieldsReported()
    ensures InvalidFields(ActivityForm("", "", "", 0, 0, "")) == FieldOrder
  {
    assert !KnownType("");
  }

  /** The message for a form with every field wrong lists the five names separated by ", ". */
  lemma AllFieldsMessage()
    ensures Join(FieldOrder, ", ") == "name, user, points, goal, type"
  {
    var sep := ", ";
    assert Join(FieldOrder[4..], sep) == "type";
    assert Join(FieldOrder[3..], sep) == "goal" + sep + "type";
    assert Join(FieldOrder[2..], sep) == "points" + sep + "goal" + sep + "type";
    assert Join(FieldOrder[1..], sep) == "user" + sep + "points" + sep + "goal" + sep + "type";
  }
}
