/** Names and flags of users, and what is left of them after a user was stored and loaded again. */
module UserNames {
  import opened Options
  import opened BoolFlags
  import opened Strings

  /** What is used of unicode.ToTitle: it is done after one time, and leaves white space to be white space. */
  ghost predicate TitleCase(up: char -> char) {
    && (forall c {:trigger up(up(c))} :: up(up(c)) == up(c))
    && (forall c {:trigger up(c)} :: IsSpace(c) ==> up(c) == c)
    && (forall c {:trigger IsSpace(up(c))} :: !IsSpace(c) ==> !IsSpace(up(c)))
  }

  function Title(part: string, up: char -> char): string
    requires part != ""
  {
    [up(part[0])] + part[1..]
  }

  predicate NoneEmpty(parts: seq<string>) { forall k :: 0 <= k < |parts| ==> parts[k] != "" }

  function TitleAll(parts: seq<string>, up: char -> char): (r: seq<string>)
    requires NoneEmpty(parts)
    ensures |r| == |parts| && forall k :: 0 <= k < |r| ==> r[k] == Title(parts[k], up)
  {
    if parts == [] then [] else [Title(parts[0], up)] + TitleAll(parts[1..], up)
  }

  /** The words of a trimmed text with their first letters in title case; no word may be empty. */
  function ToTitle(s: string, up: char -> char): Option<string> {
    var parts := Split(TrimSpace(s), " ");
    if NoneEmpty(parts) then Some(Join(TitleAll(parts, up), " ")) else None
  }

  /** The loop of toTitle; None where the program panics on the first letter of an empty word. */
  method TitleWords(s: string, up: char -> char) returns (r: Option<string>)
    ensures r == ToTitle(s, up)
  {
    var parts := Split(TrimSpace(s), " ");
    var ret := [];
    for i := 0 to |parts|
      invariant |ret| == i && forall k :: 0 <= k < i ==> parts[k] != "" && ret[k] == Title(parts[k], up)
    {
      if parts[i] == "" { return None; }
      ret := ret + [[up(parts[i][0])] + parts[i][1..]];
    }
    assert ret == TitleAll(parts, up);
    r := Some(Join(ret, " "));
  }

  // ----- words -----

  ghost predicate HasSpace(s: string) { exists i :: 0 <= i < |s| && s[i] == ' ' }

  ghost predicate HasDoubleSpace(s: string) { exists i :: 0 <= i < |s| - 1 && s[i] == ' ' && s[i + 1] == ' ' }

  lemma ContainsSpaceIff(s: string)
    ensures Contains(s, " ") <==> HasSpace(s)
  {
    ContainsIffOccurs(s, " ");
    if i :| OccursAt(s, " ", i) { assert s[i..i + 1][0] == s[i]; }
    if i :| 0 <= i < |s| && s[i] == ' ' { assert OccursAt(s, " ", i); }
  }

  lemma OneMoreWord(word: string, words: seq<string>)
    ensures NoneEmpty([word] + words) <==> word != "" && NoneEmpty(words)
  {
    var all := [word] + words;
    assert forall k :: 0 <= k < |words| ==> all[k + 1] == words[k];
    assert all[0] == word;
  }

  lemma {:induction false} EmptyWordIff(s: string)
    ensures !NoneEmpty(Split(s, " ")) <==> s == "" || s[0] == ' ' || s[|s| - 1] == ' ' || HasDoubleSpace(s)
    decreases |s|
  {
    var i := Find(s, " ");
    BeforeFirst(s, " ");
    ContainsSpaceIff(s[..i]);
    assert forall k :: 0 <= k < i ==> s[k] == s[..i][k];
    if i < |s| {
      assert s[i..i + 1][0] == ' ';
      var rest := s[i + 1..];
      EmptyWordIff(rest);
      OneMoreWord(s[..i], Split(rest, " "));
      if rest != "" { SpacesAfter(s, i); }
    } else {
      assert s[..i] == s && [s] + [] == [s];
      OneMoreWord(s, []);
    }
  }

  lemma SpacesAfter(s: string, i: nat)
    requires i < |s| - 1 && s[i] == ' ' && forall k :: 0 <= k < i ==> s[k] != ' '
    ensures HasDoubleSpace(s) <==> s[i + 1] == ' ' || HasDoubleSpace(s[i + 1..])
  {
    var rest := s[i + 1..];
    if k :| 0 <= k < |s| - 1 && s[k] == ' ' && s[k + 1] == ' ' {
      if k > i { assert rest[k - i - 1] == ' ' && rest[k - i] == ' '; }
    }
    if k :| 0 <= k < |rest| - 1 && rest[k] == ' ' && rest[k + 1] == ' ' {
      assert s[i + 1 + k] == ' ' && s[i + 2 + k] == ' ';
    }
  }

  /** Naming panics exactly on a text that is blank, or has two spaces in a row between its words. */
  lemma ToTitlePanicsIff(s: string, up: char -> char)
    ensures ToTitle(s, up).None? <==> TrimSpace(s) == "" || HasDoubleSpace(TrimSpace(s))
  {
    TrimSpaceLaws(s, " ");
    EmptyWordIff(TrimSpace(s));
  }

  // ----- titles -----

  /** A trimmed text of words that all begin in title case. */
  ghost predicate IsTitle(s: string, up: char -> char) {
    && s != "" && Trimmed(s)
    && forall k :: 0 <= k < |Split(s, " ")| ==> Split(s, " ")[k] != "" && up(Split(s, " ")[k][0]) == Split(s, " ")[k][0]
  }

  lemma {:induction false} JoinEnds(parts: seq<string>)
    requires parts != [] && NoneEmpty(parts)
    ensures var s, last := Join(parts, " "), parts[|parts| - 1];
            s != "" && s[0] == parts[0][0] && s[|s| - 1] == last[|last| - 1]
  {
    if |parts| <= 1 {
    } else {
      JoinEnds(parts[1..]);
    }
  }

  lemma {:induction false} JoinAppend(a: seq<string>, b: seq<string>)
    requires a != [] && b != []
    ensures Join(a + b, " ") == Join(a, " ") + " " + Join(b, " ")
  {
    assert (a + b)[1..] == a[1..] + b;
    if |a| <= 1 {
    } else {
      JoinAppend(a[1..], b);
    }
  }

  lemma TitledWord(part: string, up: char -> char)
    requires TitleCase(up) && part != "" && !Contains(part, " ")
    ensures !Contains(Title(part, up), " ") && up(Title(part, up)[0]) == Title(part, up)[0]
  {
    var c, titled := part[0], Title(part, up);
    assert up(up(c)) == up(c);
    ContainsSpaceIff(part);
    ContainsSpaceIff(titled);
    if IsSpace(c) { assert titled[0] == c; } else { assert !IsSpace(up(c)); }
    assert forall i :: 1 <= i < |titled| ==> titled[i] == part[i];
  }

  lemma TitledWords(parts: seq<string>, up: char -> char)
    requires TitleCase(up) && NoneEmpty(parts) && NoneContains(parts, " ")
    ensures NoneContains(TitleAll(parts, up), " ") && NoneEmpty(TitleAll(parts, up))
    ensures forall k :: 0 <= k < |parts| ==> up(TitleAll(parts, up)[k][0]) == TitleAll(parts, up)[k][0]
  {
    var titled := TitleAll(parts, up);
    forall k | 0 <= k < |parts| ensures titled[k] != "" && !Contains(titled[k], " ") && up(titled[k][0]) == titled[k][0] {
      TitledWord(parts[k], up);
    }
  }

  lemma SameEndsStayTrimmed(a: string, b: string, up: char -> char)
    requires TitleCase(up) && a != "" && b != "" && Trimmed(a)
    requires b[0] == up(a[0]) && (b[|b| - 1] == a[|a| - 1] || b[|b| - 1] == up(a[|a| - 1]))
    ensures Trimmed(b)
  {
  }

  lemma TitlesStayTrimmed(parts: seq<string>, up: char -> char)
    requires TitleCase(up) && parts != [] && NoneEmpty(parts) && Trimmed(Join(parts, " "))
    ensures Trimmed(Join(TitleAll(parts, up), " ")) && Join(TitleAll(parts, up), " ") != ""
  {
    var titled, n := TitleAll(parts, up), |parts| - 1;
    JoinEnds(parts);
    JoinEnds(titled);
    assert titled[n] == Title(parts[n], up);
    var a, b := Join(parts, " "), Join(titled, " ");
    assert b[|b| - 1] == a[|a| - 1] || b[|b| - 1] == up(a[|a| - 1]) by {
      if |parts[n]| > 1 { assert titled[n][|titled[n]| - 1] == parts[n][|parts[n]| - 1]; }
    }
    SameEndsStayTrimmed(a, b, up);
  }

  lemma ToTitleGivesTitle(s: string, up: char -> char)
    requires TitleCase(up) && ToTitle(s, up).Some?
    ensures IsTitle(ToTitle(s, up).value, up)
  {
    var t := TrimSpace(s);
    var parts := Split(t, " ");
    TrimSpaceLaws(s, " ");
    JoinOfSplit(t, " ");
    TitlesStayTrimmed(parts, up);
    SplitPartsAreFree(t, " ");
    TitledWords(parts, up);
    SplitOfJoin(TitleAll(parts, up), " ");
  }

  lemma TitleStays(s: string, up: char -> char)
    requires IsTitle(s, up)
    ensures ToTitle(s, up) == Some(s)
  {
    TrimSpaceLaws(s, " ");
    JoinOfSplit(s, " ");
    var parts := Split(s, " ");
    assert TitleAll(parts, up) == parts by {
      forall k | 0 <= k < |parts| ensures Title(parts[k], up) == parts[k] { assert parts[k] == [parts[k][0]] + parts[k][1..]; }
    }
  }

  lemma TitlesInARow(a: string, b: string, up: char -> char)
    requires IsTitle(a, up) && IsTitle(b, up)
    ensures IsTitle(a + " " + b, up)
  {
    var x, y := Split(a, " "), Split(b, " ");
    JoinOfSplit(a, " ");
    JoinOfSplit(b, " ");
    JoinAppend(x, y);
    SplitPartsAreFree(a, " ");
    SplitPartsAreFree(b, " ");
    assert NoneContains(x + y, " ");
    SplitOfJoin(x + y, " ");
  }

  // ----- only initials change -----

  /** Each letter of `t` in its place, in title case where a word begins. */
  ghost predicate InitialsRaised(t: string, r: string, up: char -> char) {
    |r| == |t| && forall i :: 0 <= i < |t| ==> r[i] == if i == 0 || t[i - 1] == ' ' then up(t[i]) else t[i]
  }

  lemma {:induction false} JoinRaises(parts: seq<string>, up: char -> char)
    requires parts != [] && NoneEmpty(parts) && NoneContains(parts, " ") && up(' ') == ' '
    ensures InitialsRaised(Join(parts, " "), Join(TitleAll(parts, up), " "), up)
  {
    var t, r := Join(parts, " "), Join(TitleAll(parts, up), " ");
    var first := parts[0];
    ContainsSpaceIff(first);
    assert TitleAll(parts, up)[0] == Title(first, up);
    if |parts| == 1 {
      assert t == first && r == Title(first, up);
    } else {
      var n := |first|;
      assert NoneContains(parts[1..], " ");
      JoinRaises(parts[1..], up);
      var t', r' := Join(parts[1..], " "), Join(TitleAll(parts[1..], up), " ");
      assert TitleAll(parts, up)[1..] == TitleAll(parts[1..], up);
      assert t == first + " " + t' && r == Title(first, up) + " " + r';
      forall i | 0 <= i < |t| ensures r[i] == if i == 0 || t[i - 1] == ' ' then up(t[i]) else t[i] {
        if i > n {
          assert t[i] == t'[i - n - 1] && r[i] == r'[i - n - 1];
          if i > n + 1 { assert t[i - 1] == t'[i - n - 2]; }
        }
      }
    }
  }

  /** Naming changes nothing but the first letter of each word, once the white space around the text is gone. */
  lemma ToTitleRaisesInitials(s: string, up: char -> char)
    requires TitleCase(up) && ToTitle(s, up).Some?
    ensures InitialsRaised(TrimSpace(s), ToTitle(s, up).value, up)
  {
    var t := TrimSpace(s);
    JoinOfSplit(t, " ");
    SplitPartsAreFree(t, " ");
    assert IsSpace(' ') && up(' ') == ' ';
    JoinRaises(Split(t, " "), up);
  }

  // ----- names -----

  datatype Name = Name(firstName: string, lastName: string, displayName: string)

  function Capitalised(s: string, up: char -> char): Option<string> { if s == "" then Some("") else ToTitle(s, up) }

  /** Without a display name, it is made of the other two; None where the program panics. */
  function NewName(firstName: string, lastName: string, displayName: string, up: char -> char): Option<Name> {
    match (Capitalised(firstName, up), Capitalised(lastName, up), Capitalised(displayName, up))
    case (Some(f), Some(l), Some(d)) => Some(Name(f, l, if d == "" then TrimSpace(f + " " + l) else d))
    case _ => None
  }

  /** Empty, or a title. */
  ghost predicate Settled(s: string, up: char -> char) { s == "" || IsTitle(s, up) }

  lemma CapitalisedIsSettled(s: string, up: char -> char)
    requires TitleCase(up)
    ensures Capitalised(s, up).Some? ==> Settled(Capitalised(s, up).value, up)
    ensures Settled(s, up) ==> Capitalised(s, up) == Some(s)
  {
    if s != "" {
      if ToTitle(s, up).Some? { ToTitleGivesTitle(s, up); }
      if IsTitle(s, up) { TitleStays(s, up); }
    }
  }

  lemma TrimOfOne(s: string)
    requires s != "" && Trimmed(s)
    ensures TrimSpace(" " + s) == s && TrimSpace(s + " ") == s && TrimSpace(" ") == ""
  {
    assert (" " + s)[1..] == s;
    assert (s + " ")[..|s|] == s;
    TrimSpaceLaws(s, " ");
    assert TrimLeft(" " + s) == TrimLeft(s) == s;
    assert TrimLeft(s + " ") == s + " " && TrimRight(s + " ") == TrimRight(s) == s;
    assert TrimLeft(" ") == "";
  }

  lemma DerivedIsSettled(f: string, l: string, up: char -> char)
    requires Settled(f, up) && Settled(l, up)
    ensures Settled(TrimSpace(f + " " + l), up)
    ensures TrimSpace(f + " " + l) == "" <==> f == "" && l == ""
  {
    if f == "" && l == "" {
      assert f + " " + l == " ";
      TrimOfOne("x");
    } else if f == "" {
      TrimOfOne(l);
    } else if l == "" {
      TrimOfOne(f);
      assert f + " " + l == f + " ";
    } else {
      TitlesInARow(f, l, up);
      TrimSpaceLaws(f + " " + l, " ");
    }
  }

  /** All parts are settled, and only a name without any part is displayed as nothing. */
  ghost predicate SettledName(name: Name, up: char -> char) {
    && Settled(name.firstName, up) && Settled(name.lastName, up) && Settled(name.displayName, up)
    && (name.displayName == "" ==> name.firstName == "" && name.lastName == "")
  }

  lemma NewNameIsSettled(firstName: string, lastName: string, displayName: string, up: char -> char)
    requires TitleCase(up) && NewName(firstName, lastName, displayName, up).Some?
    ensures SettledName(NewName(firstName, lastName, displayName, up).value, up)
  {
    CapitalisedIsSettled(firstName, up);
    CapitalisedIsSettled(lastName, up);
    CapitalisedIsSettled(displayName, up);
    DerivedIsSettled(Capitalised(firstName, up).value, Capitalised(lastName, up).value, up);
  }

  lemma SettledNameStays(name: Name, up: char -> char)
    requires TitleCase(up) && SettledName(name, up)
    ensures NewName(name.firstName, name.lastName, name.displayName, up) == Some(name)
  {
    CapitalisedIsSettled(name.firstName, up);
    CapitalisedIsSettled(name.lastName, up);
    CapitalisedIsSettled(name.displayName, up);
    DerivedIsSettled(name.firstName, name.lastName, up);
  }

  /** Making a name of a name's own parts gives the same name, also where the display name was derived. */
  lemma NewNameIsIdempotent(firstName: string, lastName: string, displayName: string, up: char -> char)
    requires TitleCase(up)
    ensures var name := NewName(firstName, lastName, displayName, up);
            name.Some? ==> NewName(name.value.firstName, name.value.lastName, name.value.displayName, up) == name
  {
    var name := NewName(firstName, lastName, displayName, up);
    if name.Some? {
      NewNameIsSettled(firstName, lastName, displayName, up);
      SettledNameStays(name.value, up);
    }
  }

  /** What a name is made of: its own parts, and to display, if nothing is given, the first name and then the last. */
  lemma NameIs(firstName: string, lastName: string, displayName: string, up: char -> char)
    requires TitleCase(up) && NewName(firstName, lastName, displayName, up).Some?
    ensures var name := NewName(firstName, lastName, displayName, up).value;
            && (if firstName == "" then name.firstName == "" else InitialsRaised(TrimSpace(firstName), name.firstName, up))
            && (if lastName == "" then name.lastName == "" else InitialsRaised(TrimSpace(lastName), name.lastName, up))
            && (displayName != "" ==> InitialsRaised(TrimSpace(displayName), name.displayName, up))
            && (displayName == "" ==>
                  name.displayName == if name.firstName == "" then name.lastName
                                      else if name.lastName == "" then name.firstName
                                      else name.firstName + " " + name.lastName)
  {
    NewNameIsSettled(firstName, lastName, displayName, up);
    var name := NewName(firstName, lastName, displayName, up).value;
    if firstName != "" { ToTitleRaisesInitials(firstName, up); }
    if lastName != "" { ToTitleRaisesInitials(lastName, up); }
    if displayName != "" {
      ToTitleRaisesInitials(displayName, up);
      CapitalisedIsSettled(displayName, up);
      ToTitleGivesTitle(displayName, up);
    } else {
      CapitalisedIsSettled(firstName, up);
      CapitalisedIsSettled(lastName, up);
      DisplayedBoth(name.firstName, name.lastName, up);
    }
  }

  lemma DisplayedBoth(f: string, l: string, up: char -> char)
    requires Settled(f, up) && Settled(l, up)
    ensures TrimSpace(f + " " + l) == if f == "" then l else if l == "" then f else f + " " + l
  {
    if f == "" {
      if l != "" { TrimOfOne(l); } else { TrimOfOne("x"); assert f + " " + l == " "; }
    } else if l == "" {
      TrimOfOne(f);
      assert f + " " + l == f + " ";
    } else {
      TitlesInARow(f, l, up);
      TrimSpaceLaws(f + " " + l, " ");
    }
  }

  ghost predicate Unnamable(s: string) { s != "" && (TrimSpace(s) == "" || HasDoubleSpace(TrimSpace(s))) }

  lemma CapitalisedPanicsIff(s: string, up: char -> char)
    ensures Capitalised(s, up).None? <==> Unnamable(s)
  {
    ToTitlePanicsIff(s, up);
  }

  lemma NewNamePanicsIff(firstName: string, lastName: string, displayName: string, up: char -> char)
    ensures NewName(firstName, lastName, displayName, up).None?
       <==> Unnamable(firstName) || Unnamable(lastName) || Unnamable(displayName)
  {
    CapitalisedPanicsIff(firstName, up);
    CapitalisedPanicsIff(lastName, up);
    CapitalisedPanicsIff(displayName, up);
  }

  // ----- flags -----

  datatype User = User(id: string, login: string, passwordHash: string, name: Name,
                       verified: BoolFlag, blocked: BoolFlag, superuser: BoolFlag)

  /** A column of type timestamptz: microseconds, or NULL. */
  type Timestamptz = Option<int>

  datatype AuthUser = AuthUser(id: string, login: string, passwordHash: string,
                               nameFirstname: string, nameLastname: string, nameDisplayname: string,
                               verifiedAt: Timestamptz, blockedAt: Timestamptz, superuserAt: Timestamptz)

  function FlagToModel(f: BoolFlag): Timestamptz { if f.nanos == 0 then None else Some(f.nanos / 1000) }

  /** A time that comes from the database is in local time. */
  function FlagFromModel(t: Timestamptz): BoolFlag { match t case None => ZERO case Some(micros) => Time(1000 * micros, false) }

  function ToModel(u: User): AuthUser {
    AuthUser(u.id, u.login, u.passwordHash, u.name.firstName, u.name.lastName, u.name.displayName,
             FlagToModel(u.verified), FlagToModel(u.blocked), FlagToModel(u.superuser))
  }

  function FromModel(m: AuthUser, up: char -> char): Option<User> {
    match NewName(m.nameFirstname, m.nameLastname, m.nameDisplayname, up)
    case None => None
    case Some(name) =>
      Some(User(m.id, m.login, m.passwordHash, name,
                FlagFromModel(m.verifiedAt), FlagFromModel(m.blockedAt), FlagFromModel(m.superuserAt)))
  }

  /** A flag keeps its truth unless it holds the zero instant in another time zone. */
  lemma FlagSurvivesIff(f: BoolFlag)
    ensures IsTrue(FlagFromModel(FlagToModel(f))) == IsTrue(f) <==> f.nanos != 0 || f.utc
    ensures f.nanos != 0 ==> 0 <= f.nanos - FlagFromModel(FlagToModel(f)).nanos < 1000
  {
  }

  /** The flags that the program makes: false, true since some instant, or loaded from the database. */
  ghost predicate MadeFlag(f: BoolFlag) { f == ZERO || f.nanos != 0 }

  /** The name of a user is the zero name, or was made by NewName. */
  ghost predicate MadeName(name: Name, up: char -> char) {
    name == Name("", "", "") || exists f, l, d :: NewName(f, l, d, up) == Some(name)
  }

  lemma StoredUserSurvives(u: User, up: char -> char)
    requires TitleCase(up) && MadeName(u.name, up) && MadeFlag(u.verified) && MadeFlag(u.blocked) && MadeFlag(u.superuser)
    ensures FromModel(ToModel(u), up).Some?
    ensures var v := FromModel(ToModel(u), up).value;
            && v.id == u.id && v.login == u.login && v.passwordHash == u.passwordHash && v.name == u.name
            && IsTrue(v.verified) == IsTrue(u.verified)
            && IsTrue(v.blocked) == IsTrue(u.blocked)
            && IsTrue(v.superuser) == IsTrue(u.superuser)
  {
    if f, l, d :| NewName(f, l, d, up) == Some(u.name) {
      NewNameIsIdempotent(f, l, d, up);
    } else {
      SettledNameStays(u.name, up);
    }
  }

  /** Storing a loaded user again changes nothing any more, exactly if no flag column holds the zero instant. */
  lemma LoadedUserIsStableIff(m: AuthUser, up: char -> char)
    requires TitleCase(up) && FromModel(m, up).Some?
    ensures FromModel(ToModel(FromModel(m, up).value), up) == FromModel(m, up)
       <==> m.verifiedAt != Some(0) && m.blockedAt != Some(0) && m.superuserAt != Some(0)
  {
    NewNameIsIdempotent(m.nameFirstname, m.nameLastname, m.nameDisplayname, up);
  }
}
