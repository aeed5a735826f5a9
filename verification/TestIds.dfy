/** Names joined by a separator: test ids (conf.TestIDFmt, internal/conf/conf.go:126-129)
    and the labels of matrix rows. */
module TestIds {
  const SLASH: char := '/'
  const ARROW: char := '\U{2192}'

  /** Two names with a separator between them. */
  function Joined(sep: char, a: string, b: string): (s: string)
    ensures |s| == |a| + 1 + |b|
  {
    a + [sep] + b
  }

  /** The second pair is the first with the separator moved to the right. */
  ghost predicate Shifted(sep: char, a: string, b: string, a2: string, b2: string) {
    exists x :: a2 == Joined(sep, a, x) && b == Joined(sep, x, b2)
  }

  lemma JoinedAt(sep: char, a: string, b: string)
    ensures var s := Joined(sep, a, b); s[..|a|] == a && s[|a|] == sep && s[|a| + 1..] == b
  {
  }

  lemma LongerShifts(sep: char, a: string, b: string, a2: string, b2: string)
    requires Joined(sep, a, b) == Joined(sep, a2, b2) && |a| < |a2|
    ensures Shifted(sep, a, b, a2, b2)
  {
    var s := Joined(sep, a, b);
    JoinedAt(sep, a, b);
    JoinedAt(sep, a2, b2);
    var x := a2[|a| + 1..];
    assert a2[..|a|] == s[..|a|] && a2[|a|] == s[|a|];
    assert a2 == a2[..|a|] + [a2[|a|]] + x;
    assert b == Joined(sep, a2, b2)[|a| + 1..] == Joined(sep, x, b2);
  }

  lemma ShiftedJoins(sep: char, a: string, b: string, a2: string, b2: string)
    requires Shifted(sep, a, b, a2, b2)
    ensures Joined(sep, a, b) == Joined(sep, a2, b2)
  {
    var x :| a2 == Joined(sep, a, x) && b == Joined(sep, x, b2);
    assert (a + [sep] + x) + [sep] + b2 == a + [sep] + (x + [sep] + b2);
  }

  /** Two joined pairs are one text exactly when they are one pair, or one is the other
      with the separator moved. */
  lemma JoinedMeet(sep: char, a: string, b: string, a2: string, b2: string)
    ensures Joined(sep, a, b) == Joined(sep, a2, b2) <==>
            (a == a2 && b == b2) || Shifted(sep, a, b, a2, b2) || Shifted(sep, a2, b2, a, b)
  {
    if Joined(sep, a, b) == Joined(sep, a2, b2) {
      JoinedAt(sep, a, b);
      JoinedAt(sep, a2, b2);
      if |a| < |a2| {
        LongerShifts(sep, a, b, a2, b2);
      } else if |a2| < |a| {
        LongerShifts(sep, a2, b2, a, b);
      }
    } else {
      if Shifted(sep, a, b, a2, b2) { ShiftedJoins(sep, a, b, a2, b2); }
      if Shifted(sep, a2, b2, a, b) { ShiftedJoins(sep, a2, b2, a, b); }
    }
  }

  /** Nothing moves out of a name without the separator. */
  lemma PlainNeverShifts(sep: char, a: string, b: string, a2: string, b2: string)
    requires sep !in a2
    ensures !Shifted(sep, a, b, a2, b2)
  {
    forall x ensures a2 != Joined(sep, a, x) {
      assert Joined(sep, a, x)[|a|] == sep;
    }
  }

  /** TestIDFmt. */
  function TestId(typ: string, format: string, name: string): string {
    Joined(SLASH, typ, Joined(SLASH, format, name))
  }

  /** The type a test id names: strings.Cut at the first slash. */
  function TypeOf(id: string): (t: string)
    ensures SLASH !in t
    ensures t == id || exists rest :: id == Joined(SLASH, t, rest)
  {
    if id == "" || id[0] == SLASH then
      assert id != "" ==> id == Joined(SLASH, "", id[1..]);
      ""
    else
      var t := TypeOf(id[1..]);
      assert forall rest | id[1..] == Joined(SLASH, t, rest) :: id == Joined(SLASH, [id[0]] + t, rest);
      [id[0]] + t
  }

  /** A type's name is a file's base name, so the type of a test id is its type. */
  lemma TypeOfTestId(typ: string, format: string, name: string)
    requires SLASH !in typ
    ensures TypeOf(TestId(typ, format, name)) == typ
  {
    var id, rest := TestId(typ, format, name), Joined(SLASH, format, name);
    var t := TypeOf(id);
    JoinedAt(SLASH, typ, rest);
    assert id[|typ|] == SLASH;
    if t != id {
      var r :| id == Joined(SLASH, t, r);
      JoinedMeet(SLASH, typ, rest, t, r);
      PlainNeverShifts(SLASH, typ, rest, t, r);
      PlainNeverShifts(SLASH, t, r, typ, rest);
    }
  }

  /** Two test ids are the same exactly when all three names are, or the type is and a
      slash of one case name could as well belong to the other format. */
  lemma IdsMeet(typ: string, format: string, name: string, typ2: string, format2: string, name2: string)
    requires SLASH !in typ && SLASH !in typ2
    ensures TestId(typ, format, name) == TestId(typ2, format2, name2) <==>
            typ == typ2 && ((format == format2 && name == name2)
                            || Shifted(SLASH, format, name, format2, name2)
                            || Shifted(SLASH, format2, name2, format, name))
  {
    var rest, rest2 := Joined(SLASH, format, name), Joined(SLASH, format2, name2);
    JoinedMeet(SLASH, typ, rest, typ2, rest2);
    PlainNeverShifts(SLASH, typ, rest, typ2, rest2);
    PlainNeverShifts(SLASH, typ2, rest2, typ, rest);
    JoinedMeet(SLASH, format, name, format2, name2);
  }

  /** Distinct names are not enough: two formats and two cases with one id. */
  lemma NamesCollide(typ: string)
    ensures TestId(typ, "a", "b/c") == TestId(typ, "a/b", "c")
  {
    assert "a" + ['/'] + "b/c" == "a/b" + ['/'] + "c";
  }
}
