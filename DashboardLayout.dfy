/** The initials shown in the header of the dashboard layout
    (`getInitials` in `src/components/layout/DashboardLayout.tsx`). */
module DashboardLayout {
  import opened Wrappers
  import opened JsString

  /** What `getInitials` throws when the trimmed name is empty: `names[0][0]`
      is `undefined`, and calling `toUpperCase` on it fails. */
  const UndefinedUpperCase := "TypeError: Cannot read properties of undefined (reading 'toUpperCase')"

  /** `word[0]`: the first character, or `undefined` for an empty word. */
  function FirstChar(word: string): (c: Option<char>)
    ensures c.Some? <==> word != []
  {
    if word == [] then None else Some(word[0])
  }

  /** A value as string concatenation renders it. */
  function Render(c: Option<char>): string {
    match c
    case Some(ch) => [ch]
    case None => "undefined"
  }

  /** `getInitials(fullName)`: the empty name gives the empty string;
      otherwise the initials of the trimmed name. */
  function GetInitials(fullName: string): (r: Result<string, string>)
    ensures r.Failure? <==> fullName != [] && AllWhitespace(fullName)
  {
    if fullName == [] then Success([])
    else
      TrimEmpty(fullName);
      SplitSingle(Trim(fullName), ' ');
      InitialsOf(Trim(fullName))
  }

  /** Splits a trimmed name on single spaces and upper-cases the first
      letters of the first and the last word. */
  function InitialsOf(trimmed: string): Result<string, string> {
    var names := Split(trimmed, ' ');
    if |names| == 1 then
      match FirstChar(names[0])
      case None => Failure(UndefinedUpperCase)
      case Some(c) => Success(ToUpper([c]))
    else
      Success(ToUpper(Render(FirstChar(names[0])) + Render(FirstChar(names[|names| - 1]))))
  }

  /** A name whose trimmed form is one word gives that word's first letter. */
  lemma InitialsOneWord(fullName: string)
    requires Trim(fullName) != [] && ' ' !in Trim(fullName)
    ensures GetInitials(fullName) == Success([UpperChar(Trim(fullName)[0])])
  {
    var t := Trim(fullName);
    TrimEmpty(fullName);
    SplitSingle(t, ' ');
    assert fullName != [];
    assert Split(t, ' ')[0] == t;
    assert ToUpper([t[0]]) == [UpperChar(t[0])];
  }

  /** A name whose trimmed form has a space gives two letters: the first
      letter of the name and the letter after its last space. */
  lemma InitialsSeveralWords(fullName: string)
    requires ' ' in Trim(fullName)
    ensures var t := Trim(fullName);
            exists k :: 0 <= k < |t| - 1 && t[k] == ' ' && ' ' !in t[k + 1..]
                        && GetInitials(fullName) == Success([UpperChar(t[0]), UpperChar(t[k + 1])])
  {
    var t := Trim(fullName);
    TrimEmpty(fullName);
    TrimSpec(fullName);
    SplitSingle(t, ' ');
    assert fullName != [];
    var k := InitialsOfWords(t);
  }

  /** The two-letter case on the trimmed name, with the last space's index. */
  lemma InitialsOfWords(t: string) returns (k: int)
    requires ' ' in t && !IsWhitespace(t[0]) && !IsWhitespace(t[|t| - 1])
    ensures 0 <= k < |t| - 1 && t[k] == ' ' && ' ' !in t[k + 1..]
    ensures InitialsOf(t) == Success([UpperChar(t[0]), UpperChar(t[k + 1])])
  {
    var names := Split(t, ' ');
    SplitSingle(t, ' ');
    SplitFirst(t, ' ');
    SplitLast(t, ' ');
    var last := names[|names| - 1];
    assert names[0] != [] by {
      assert t[0] != ' ' && t[|names[0]|] == ' ';
    }
    assert last != [] by {
      assert t[|t| - 1] != ' ' && t[|t| - |last| - 1] == ' ';
    }
    k := |t| - |last| - 1;
    assert t[k + 1..] == last;
    assert names[0][0] == t[0];
    assert Render(FirstChar(names[0])) + Render(FirstChar(last)) == [t[0], t[k + 1]];
    assert |names| != 1;
    assert ToUpper([t[0], t[k + 1]]) == [UpperChar(t[0]), UpperChar(t[k + 1])];
  }

  /** Whitespace around a non-empty name does not change its initials. */
  lemma InitialsIgnorePadding(p: string, name: string, q: string)
    requires AllWhitespace(p) && AllWhitespace(q) && name != []
    ensures GetInitials(p + name + q) == GetInitials(name)
  {
    TrimIgnoresPadding(p, name, q);
    assert |p + name + q| >= |name|;
  }

  /** The initials are empty only for the empty name, and never longer than two. */
  lemma InitialsLength(fullName: string)
    requires GetInitials(fullName).Success?
    ensures var r := GetInitials(fullName).value;
            (r == [] <==> fullName == []) && |r| <= 2
  {
    var t := Trim(fullName);
    if fullName != [] {
      TrimEmpty(fullName);
      if ' ' in t {
        InitialsSeveralWords(fullName);
      } else {
        InitialsOneWord(fullName);
      }
    }
  }
}
