/** `handleSearch`, the user-list filter of both administrator screens
    (AdminDashboard.tsx and ornek1/UserDashboard.js hold the same code):
    a blank query shows every user, any other query keeps, in order, the
    users whose first or last name contains the query, ignoring case. */
module NameSearch {
  import opened Common

  // ---------------------------------------------------------------------
  // String helpers: `toLowerCase`, `trim` and `includes`

  /** The capitals `toLowerCase` maps one-to-one that a Turkish name can
      hold: A-Z, the Latin-1 capitals À-Þ (× excepted, so Ç Ö Ü among them)
      and Ğ and Ş. */
  predicate ShiftsBy32(c: char)
  {
    'A' <= c <= 'Z' || (0xC0 <= c as int <= 0xDE && c as int != 0xD7)
  }

  predicate ShiftsBy1(c: char)
  {
    c as int == 0x11E || c as int == 0x15E
  }

  /** Lower-casing of one character: each capital above becomes its small
      letter (À-Þ and A-Z 32 code points up, Ğ and Ş one up), every other
      character stays. */
  function LowerChar(c: char): (l: char)
    ensures ShiftsBy32(c) ==> l as int == c as int + 32
    ensures ShiftsBy1(c) ==> l as int == c as int + 1
    ensures !ShiftsBy32(c) && !ShiftsBy1(c) ==> l == c
  {
    if ShiftsBy32(c) then (c as int + 32) as char
    else if ShiftsBy1(c) then (c as int + 1) as char
    else c
  }

  /** `s.toLowerCase()`. */
  function ToLower(s: string): (r: string)
    ensures |r| == |s|
    ensures forall i | 0 <= i < |s| :: r[i] == LowerChar(s[i])
  {
    if |s| == 0 then [] else [LowerChar(s[0])] + ToLower(s[1..])
  }

  /** Lower-casing twice is lower-casing once. */
  lemma ToLowerIdempotent(s: string)
    ensures ToLower(ToLower(s)) == ToLower(s)
  {
    assert forall i | 0 <= i < |s| :: LowerChar(LowerChar(s[i])) == LowerChar(s[i]);
  }

  /** The white space `trim` removes (the ASCII part of it). */
  predicate IsSpace(c: char)
  {
    c == ' ' || c == '\t' || c == '\n' || c == '\r' || c as int == 11 || c as int == 12
  }

  function TrimStart(s: string): (r: string)
    ensures |r| <= |s| && r == s[|s| - |r|..]
    ensures forall i | 0 <= i < |s| - |r| :: IsSpace(s[i])
    ensures |r| > 0 ==> !IsSpace(r[0])
  {
    if |s| > 0 && IsSpace(s[0]) then TrimStart(s[1..]) else s
  }

  function TrimEnd(s: string): (r: string)
    ensures |r| <= |s| && r == s[..|r|]
    ensures forall i | |r| <= i < |s| :: IsSpace(s[i])
    ensures |r| > 0 ==> !IsSpace(r[|r| - 1])
  {
    if |s| > 0 && IsSpace(s[|s| - 1]) then TrimEnd(s[..|s| - 1]) else s
  }

  /** `s.trim()`. */
  function Trim(s: string): string
  {
    TrimEnd(TrimStart(s))
  }

  /** `text.trim() === ''` holds exactly for the texts made only of white
      space (the empty text included). */
  lemma {:induction false} TrimEmptyIffBlank(s: string)
    ensures Trim(s) == "" <==> forall i | 0 <= i < |s| :: IsSpace(s[i])
  {
    var t := TrimStart(s);
    if Trim(s) == "" {
      assert |t| == 0;
    } else {
      var r := Trim(s);
      assert r[0] == t[0];
      assert t[0] == s[|s| - |t|];
    }
  }

  /** `needle` is found in `haystack` starting at position `i`. */
  ghost predicate OccursAt(haystack: string, needle: string, i: int)
  {
    0 <= i <= |haystack| - |needle| && haystack[i..i + |needle|] == needle
  }

  /** `haystack.includes(needle)`. */
  function Includes(haystack: string, needle: string): (r: bool)
    ensures r <==> exists i :: OccursAt(haystack, needle, i)
  {
    if |needle| > |haystack| then false
    else if haystack[..|needle|] == needle then
      assert OccursAt(haystack, needle, 0);
      true
    else
      var r := Includes(haystack[1..], needle);
      forall i | OccursAt(haystack[1..], needle, i) ensures OccursAt(haystack, needle, i + 1) {
        assert haystack[1..][i..i + |needle|] == haystack[i + 1..i + 1 + |needle|];
      }
      forall i | OccursAt(haystack, needle, i) ensures i >= 1 && OccursAt(haystack[1..], needle, i - 1) {
        assert haystack[1..][i - 1..i - 1 + |needle|] == haystack[i..i + |needle|];
      }
      r
  }

  // ---------------------------------------------------------------------
  // The filter

  /** The filter's test with the already lower-cased query. */
  predicate NameMatches(user: User, lowercasedText: string)
  {
    Includes(ToLower(user.firstName), lowercasedText) || Includes(ToLower(user.lastName), lowercasedText)
  }

  /** The list `handleSearch(text)` shows. The query is lower-cased but not
      trimmed, so its white space takes part in the match. */
  function Search(users: seq<User>, text: string): (r: seq<User>)
    ensures Trim(text) == "" ==> r == users
    ensures Trim(text) != "" ==>
      && (forall i | 0 <= i < |r| :: r[i] in users && NameMatches(r[i], ToLower(text)))
      && (forall i | 0 <= i < |users| && NameMatches(users[i], ToLower(text)) :: users[i] in r)
  {
    if Trim(text) == "" then users
    else
      var lowercasedText := ToLower(text);
      Filter(users, (user: User) => NameMatches(user, lowercasedText))
  }

  /** For a non-blank query the result keeps the list order: searching a
      concatenation searches each part, and a single user is kept exactly
      when a name matches. */
  lemma {:induction false} SearchKeepsOrder(a: seq<User>, b: seq<User>, text: string)
    requires Trim(text) != ""
    ensures Search(a + b, text) == Search(a, text) + Search(b, text)
  {
    FilterAppend(a, b, (user: User) => NameMatches(user, ToLower(text)));
  }

  lemma SearchOne(user: User, text: string)
    requires Trim(text) != ""
    ensures Search([user], text) == if NameMatches(user, ToLower(text)) then [user] else []
  {
    assert [user][1..] == [];
  }

  /** Lower-casing is not a space-changing operation, so a query and its
      lower-cased form are blank together. */
  lemma {:induction false} LowerKeepsBlank(text: string)
    ensures Trim(ToLower(text)) == "" <==> Trim(text) == ""
  {
    TrimEmptyIffBlank(text);
    TrimEmptyIffBlank(ToLower(text));
    LowerKeepsSpaces(text);
  }

  lemma LowerKeepsSpaces(text: string)
    ensures forall i | 0 <= i < |text| :: IsSpace(ToLower(text)[i]) == IsSpace(text[i])
  {
    var lower := ToLower(text);
    forall i | 0 <= i < |text| ensures IsSpace(lower[i]) == IsSpace(text[i]) {
      assert lower[i] == LowerChar(text[i]);
    }
  }

  /** The case of the query does not matter. */
  lemma SearchIgnoresQueryCase(users: seq<User>, text: string)
    ensures Search(users, ToLower(text)) == Search(users, text)
  {
    LowerKeepsBlank(text);
    ToLowerIdempotent(text);
  }

  /** A Turkish capital is matched by its small letter: "ş" finds "Şahin". */
  lemma TurkishQueryMatches()
    ensures var user := User("u1", "Şahin", "Kaya", None);
      Search([user], "ş") == [user]
  {
    var user := User("u1", "Şahin", "Kaya", None);
    assert Trim("ş") != "";
    assert ToLower("ş") == "ş";
    assert ToLower(user.firstName)[0..1] == "ş";
    assert OccursAt(ToLower(user.firstName), "ş", 0);
    SearchOne(user, "ş");
  }

  /** The search state of a screen: the loaded users, the query and the list
      shown. */
  class UserSearch {
    var users: seq<User>
    var searchText: string
    var filteredUsers: seq<User>

    constructor (loaded: seq<User>)
      ensures users == loaded && searchText == "" && filteredUsers == loaded
    {
      users, searchText, filteredUsers := loaded, "", loaded;
    }

    /** `handleSearch(text)`: records the query and shows its result. */
    method HandleSearch(text: string)
      modifies this
      ensures searchText == text && filteredUsers == Search(users, text)
      ensures users == old(users)
    {
      searchText := text;
      if Trim(text) == "" {
        filteredUsers := users;
      } else {
        var lowercasedText := ToLower(text);
        filteredUsers := Filter(users, (user: User) => NameMatches(user, lowercasedText));
      }
    }
  }
}
