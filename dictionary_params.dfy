/** The two name-level helpers of a dictionary: reading the requested dictionary names from the
    request parameters, and the file name derived from a dictionary's name. */
module DictionaryParams {
  import opened Outcomes
  import opened RubyText
  import opened Seqs

  /** The characters the name list is split on: `/[,|]/`. */
  const NameSeparators: set<char> := {',', '|'}

  /** The value of the first of `dictionaries`, `dictionary` and `id` that is a parameter key. */
  function RequestedNames(params: map<string, string>): Option<string> {
    if "dictionaries" in params then Some(params["dictionaries"])
    else if "dictionary" in params then Some(params["dictionary"])
    else if "id" in params then Some(params["id"])
    else None
  }

  /** The names of a non-blank list: split on commas and bars, then stripped. */
  function StrippedNames(list: string): (r: seq<string>)
    ensures |r| == |Split(list, NameSeparators)|
    ensures forall i :: 0 <= i < |r| ==> r[i] == Strip(Split(list, NameSeparators)[i])
  {
    Map(Split(list, NameSeparators), Strip)
  }

  /** The requested names that name no dictionary, in order. */
  function UnknownNames(requested: seq<string>, known: set<string>): (r: seq<string>)
    ensures r == [] <==> forall i :: 0 <= i < |requested| ==> requested[i] in known
  {
    var r := Filter(requested, n => n !in known);
    assert forall i :: 0 <= i < |requested| && requested[i] !in known ==> requested[i] in r;
    r
  }

  /** `find_dictionaries_from_params`, with the dictionaries that exist given by their names:
      no dictionaries for a missing or blank list; otherwise the comma- or bar-separated names,
      stripped and in order, or ArgumentError when one of them does not exist. */
  function FindDictionariesFromParams(params: map<string, string>, known: set<string>): (r: Result<seq<string>>)
    ensures RequestedNames(params).None? || IsBlank(RequestedNames(params).value) ==> r == Success([])
    ensures r.Success? ==> forall i :: 0 <= i < |r.value| ==> r.value[i] in known
    ensures r.Success? && RequestedNames(params).Some? && !IsBlank(RequestedNames(params).value) ==>
              r.value == StrippedNames(RequestedNames(params).value)
    ensures r.Failure? <==>
              && RequestedNames(params).Some? && !IsBlank(RequestedNames(params).value)
              && exists i :: 0 <= i < |StrippedNames(RequestedNames(params).value)| &&
                               StrippedNames(RequestedNames(params).value)[i] !in known
  {
    var names := RequestedNames(params);
    if names.None? || IsBlank(names.value) then Success([])
    else
      var requested := StrippedNames(names.value);
      var unknown := UnknownNames(requested, known);
      if unknown != [] then Failure("unknown dictionary: " + JoinWith(unknown, ", ") + ".")
      else Success(requested)
  }

  /** A dictionary name that can be listed in the parameter as it is: not blank for `present?`,
      nothing for `strip` to remove, and no separator. */
  predicate IsListableName(n: string, known: set<string>) {
    && n in known && n != [] && !IsBlank(n) && !IsStrippable(n[0]) && !IsStrippable(n[|n| - 1])
    && forall k :: 0 <= k < |n| ==> n[k] !in NameSeparators
  }

  /** Listing existing dictionaries separated by commas or bars requests exactly those
      dictionaries, in that order. */
  lemma NameListRoundTrip(names: seq<string>, sep: char, known: set<string>)
    requires names != [] && sep in NameSeparators
    requires forall i :: 0 <= i < |names| ==> IsListableName(names[i], known)
    ensures FindDictionariesFromParams(map["dictionaries" := Join(names, sep)], known) == Success(names)
  {
    var params := map["dictionaries" := Join(names, sep)];
    assert RequestedNames(params) == Some(Join(names, sep));
    ListedNamesSplit(names, sep, known);
  }

  /** The joined list is not blank, and splitting and stripping it gives the names back. */
  lemma ListedNamesSplit(names: seq<string>, sep: char, known: set<string>)
    requires names != [] && sep in NameSeparators
    requires forall i :: 0 <= i < |names| ==> IsListableName(names[i], known)
    ensures !IsBlank(Join(names, sep)) && StrippedNames(Join(names, sep)) == names
  {
    ListedNamesNotBlank(names, sep, known);
    ListedNamesFields(names, sep, known);
    NamesStripped(names, known);
  }

  /** The joined list starts with the first name, which holds a character that is not blank. */
  lemma ListedNamesNotBlank(names: seq<string>, sep: char, known: set<string>)
    requires names != [] && IsListableName(names[0], known)
    ensures !IsBlank(Join(names, sep))
  {
    var s := Join(names, sep);
    var n := names[0];
    var k :| 0 <= k < |n| && !IsBlankChar(n[k]);
    assert s[..|n|] == n by {
      if |names| > 1 { assert s == n + [sep] + Join(names[1..], sep); }
    }
    assert s[k] == n[k];
  }

  /** A parameter holding only an ideographic space is blank for `present?`, so no dictionary is
      requested even when a dictionary has that name. */
  lemma IdeographicSpaceRequestsNothing(known: set<string>)
    ensures FindDictionariesFromParams(map["dictionaries" := "\U{3000}"], known) == Success([])
  {
    assert RequestedNames(map["dictionaries" := "\U{3000}"]) == Some("\U{3000}");
  }

  /** Splitting the joined list gives the names back: no name holds a separator and the last one is not empty. */
  lemma ListedNamesFields(names: seq<string>, sep: char, known: set<string>)
    requires names != [] && sep in NameSeparators
    requires forall i :: 0 <= i < |names| ==> IsListableName(names[i], known)
    ensures Split(Join(names, sep), NameSeparators) == names
  {
    FieldsJoin(names, sep, NameSeparators);
    assert names[|names| - 1] != [];
  }

  /** Stripping leaves every listable name as it is. */
  lemma {:induction false} NamesStripped(names: seq<string>, known: set<string>)
    requires forall i :: 0 <= i < |names| ==> IsListableName(names[i], known)
    ensures Map(names, Strip) == names
  {
    if names != [] {
      assert IsListableName(names[0], known);
      StripUnchanged(names[0]);
      assert forall i :: 0 <= i < |names[1..]| ==> names[1..][i] == names[i + 1];
      NamesStripped(names[1..], known);
    }
  }

  /** `filename`: every run of whitespace in the name becomes one underscore, so the result holds
      no whitespace, and a name without whitespace is its own file name. */
  function Filename(name: string): (r: string)
    ensures forall i :: 0 <= i < |r| ==> !IsSpace(r[i])
    ensures (forall i :: 0 <= i < |name| ==> !IsSpace(name[i])) ==> r == name
  {
    UnderscoredWithoutSpace(name);
    Underscored(name)
  }

  lemma {:induction false} UnderscoredWithoutSpace(s: string)
    ensures (forall i :: 0 <= i < |s| ==> !IsSpace(s[i])) ==> Underscored(s) == s
  {
    if s != [] && forall i :: 0 <= i < |s| ==> !IsSpace(s[i]) {
      UnderscoredWithoutSpace(s[1..]);
      assert forall i :: 0 <= i < |s[1..]| ==> !IsSpace(s[1..][i]) by {
        forall i | 0 <= i < |s[1..]| ensures !IsSpace(s[1..][i]) { assert s[1..][i] == s[i + 1]; }
      }
    }
  }

  /** Two distinct dictionary names can share one file name. */
  lemma FilenamesCanCollide()
    ensures Filename("a b") == Filename("a_b")
  {
    assert "a b"[1..] == " b" && " b"[1..] == "b" && "b"[1..] == [];
    assert Underscored("b") == "b";
    assert Underscored(" b") == "_b";
    assert "a_b"[1..] == "_b" && "_b"[1..] == "b";
    assert Underscored("_b") == "_b";
  }
}
