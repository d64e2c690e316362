/**
 * The display-string utilities of the internal utils package: the label/annotation map
 * formatter, the connectivity-error classifier shown at start-up, and the stripper of
 * terminal colour codes applied to command output.
 */
module Utils {
  import opened Wrappers
  import opened Text

  // ================================================================ map formatter

  /** One formatted entry: key="value" and a newline. */
  function Line(key: string, value: string): string {
    key + "=\"" + value + "\"\n"
  }

  /** The lines of the entries of `m`, taken in the key order `order`. */
  function Render(m: map<string, string>, order: seq<string>): string
    requires forall i :: 0 <= i < |order| ==> order[i] in m
  {
    if order == [] then "" else Line(order[0], m[order[0]]) + Render(m, order[1..])
  }

  /** `order` lists every key of `m` exactly once: one possible iteration order of a Go map. */
  ghost predicate IsKeyOrder(order: seq<string>, m: map<string, string>) {
    && (forall i :: 0 <= i < |order| ==> order[i] in m)
    && (forall k :: k in m ==> k in order)
    && (forall i, j :: 0 <= i < j < |order| ==> order[i] != order[j])
  }

  /** `s` holds one line per entry of `m`, in some order. */
  ghost predicate IsMapText(s: string, m: map<string, string>) {
    exists order :: IsKeyOrder(order, m) && s == Render(m, order)
  }

  lemma {:induction false} RenderAppend(m: map<string, string>, order: seq<string>, key: string)
    requires forall i :: 0 <= i < |order| ==> order[i] in m
    requires key in m
    ensures Render(m, order + [key]) == Render(m, order) + Line(key, m[key])
  {
    if order == [] {
      assert [key][1..] == [];
    } else {
      assert (order + [key])[1..] == order[1..] + [key];
      RenderAppend(m, order[1..], key);
    }
  }

  /**
   * ConvertMapToString: writes one line per map entry into a buffer, visiting the keys
   * in Go's unspecified map order (modelled by picking any key not yet written).
   */
  method ConvertMapToString(m: map<string, string>) returns (s: string)
    ensures IsMapText(s, m)
  {
    s := "";
    var remaining := m.Keys;
    ghost var order: seq<string> := [];
    while remaining != {}
      invariant remaining <= m.Keys
      invariant forall i :: 0 <= i < |order| ==> order[i] in m && order[i] !in remaining
      invariant forall k :: k in m ==> k in order || k in remaining
      invariant forall i, j :: 0 <= i < j < |order| ==> order[i] != order[j]
      invariant s == Render(m, order)
      decreases remaining
    {
      var key :| key in remaining;
      RenderAppend(m, order, key);
      s := s + Line(key, m[key]);
      order := order + [key];
      remaining := remaining - {key};
    }
    assert IsKeyOrder(order, m);
  }

  /** A key order has one element per map entry. */
  lemma {:induction false} KeyOrderCount(order: seq<string>, m: map<string, string>)
    requires IsKeyOrder(order, m)
    ensures |order| == |m|
    decreases |order|
  {
    if order == [] {
      assert m.Keys == {};
    } else {
      var k := order[0];
      var rest := m - {k};
      forall i | 0 <= i < |order[1..]|
        ensures order[1..][i] in rest
      {
        assert order[1..][i] == order[i + 1];
      }
      forall x | x in rest
        ensures x in order[1..]
      {
        var j :| 0 <= j < |order| && order[j] == x;
        assert order[1..][j - 1] == x;
      }
      assert IsKeyOrder(order[1..], rest);
      KeyOrderCount(order[1..], rest);
      assert rest.Keys == m.Keys - {k};
    }
  }

  /** The empty map formats to the empty string. */
  lemma EmptyMapText(s: string)
    requires IsMapText(s, map[])
    ensures s == ""
  {
    var empty: map<string, string> := map[];
    var order :| IsKeyOrder(order, empty) && s == Render(empty, order);
    KeyOrderCount(order, empty);
  }

  /** A one-entry map formats to exactly its one line. */
  lemma SingleEntryMapText(s: string, key: string, value: string)
    requires IsMapText(s, map[key := value])
    ensures s == key + "=\"" + value + "\"\n"
  {
    var m := map[key := value];
    var order :| IsKeyOrder(order, m) && s == Render(m, order);
    KeyOrderCount(order, m);
    assert key in order;
    assert order == [key];
    assert order[1..] == [];
    assert Render(m, order) == Line(key, value) + Render(m, []);
  }

  /** The test case of the utils package: {"key": "value"} formats to key="value" and a newline. */
  lemma KeyValueMapText(s: string)
    requires IsMapText(s, map["key" := "value"])
    ensures s == "key=\"value\"\n"
  {
    SingleEntryMapText(s, "key", "value");
  }

  // ---------------------------------------------------------------- reading the text back

  /** Reads one line key="value" (without its newline): the key ends at the first '='. */
  function ParseLine(line: string): Option<(string, string)> {
    match IndexOf(line, '=')
    case None => None
    case Some(j) =>
      if j + 3 <= |line| && line[j + 1] == '"' && line[|line| - 1] == '"'
      then Some((line[..j], line[j + 2..|line| - 1]))
      else None
  }

  /** Reads the formatter's output back into its (key, value) pairs, line by line. */
  function ParseMapText(s: string): Option<seq<(string, string)>>
    decreases |s|
  {
    if s == [] then Some([])
    else match IndexOf(s, '\n')
      case None => None
      case Some(i) =>
        match (ParseLine(s[..i]), ParseMapText(s[i + 1..]))
        case (Some(kv), Some(rest)) => Some([kv] + rest)
        case _ => None
  }

  /** The entries of `m` in the key order `order`. */
  function Pairs(m: map<string, string>, order: seq<string>): seq<(string, string)>
    requires forall i :: 0 <= i < |order| ==> order[i] in m
  {
    if order == [] then [] else [(order[0], m[order[0]])] + Pairs(m, order[1..])
  }

  /** Fills a map from pairs. */
  function PairsToMap(ps: seq<(string, string)>): map<string, string> {
    if ps == [] then map[] else PairsToMap(ps[1..])[ps[0].0 := ps[0].1]
  }

  /** Entries the line format carries unambiguously: no newline anywhere, no '=' in a key. */
  ghost predicate Parseable(m: map<string, string>) {
    forall k :: k in m ==> '\n' !in k && '=' !in k && '\n' !in m[k]
  }

  /**
   * Why the round trip needs Parseable: a value holding a newline and `="` renders exactly
   * like two separate entries, so two different maps give the same text.
   */
  lemma MapTextAmbiguous()
    ensures var one := map["k" := "a\"\nb=\"c"];
            var two := map["k" := "a", "b" := "c"];
            && one != two && !Parseable(one) && Parseable(two)
            && IsMapText("k=\"a\"\nb=\"c\"\n", one) && IsMapText("k=\"a\"\nb=\"c\"\n", two)
  {
    var one := map["k" := "a\"\nb=\"c"];
    var two := map["k" := "a", "b" := "c"];
    assert "b" in two && "b" !in one;
    assert one["k"][2] == '\n';
    var s := "k=\"a\"\nb=\"c\"\n";
    assert IsKeyOrder(["k"], one) && s == Render(one, ["k"]);
    assert ["k", "b"][1..] == ["b"];
    assert IsKeyOrder(["k", "b"], two) && s == Render(two, ["k", "b"]);
  }

  lemma ParseOneLine(s: string, key: string, value: string, rest: string, i: nat)
    requires '\n' !in key && '=' !in key && '\n' !in value
    requires s == Line(key, value) + rest && i == |key| + |value| + 3
    ensures i < |s| && IndexOf(s, '\n') == Some(i)
    ensures ParseLine(s[..i]) == Some((key, value))
    ensures s[i + 1..] == rest
  {
    var line := key + "=\"" + value + "\"";
    assert s == line + "\n" + rest;
    assert s[..i] == line;
    assert s[i] == '\n';
    forall k | 0 <= k < i ensures s[k] != '\n' {
      if k < |key| {
        assert s[k] == key[k];
      } else if |key| + 2 <= k < |key| + 2 + |value| {
        assert s[k] == value[k - |key| - 2];
      }
    }
    IndexOfAt(s, '\n', i);
    forall k | 0 <= k < |key| ensures line[k] != '=' {
      assert line[k] == key[k];
    }
    IndexOfAt(line, '=', |key|);
    assert line[..|key|] == key;
    assert line[|key| + 2..|line| - 1] == value;
  }

  lemma ParseMapTextStep(s: string, i: nat, kv: (string, string), ps: seq<(string, string)>)
    requires i < |s| && IndexOf(s, '\n') == Some(i)
    requires ParseLine(s[..i]) == Some(kv) && ParseMapText(s[i + 1..]) == Some(ps)
    ensures ParseMapText(s) == Some([kv] + ps)
  {
  }

  lemma {:induction false} ParseRender(m: map<string, string>, order: seq<string>)
    requires Parseable(m)
    requires forall i :: 0 <= i < |order| ==> order[i] in m
    ensures ParseMapText(Render(m, order)) == Some(Pairs(m, order))
  {
    if order != [] {
      var key := order[0];
      var rest := Render(m, order[1..]);
      var i := |key| + |m[key]| + 3;
      assert '\n' !in key && '=' !in key && '\n' !in m[key];
      ParseOneLine(Render(m, order), key, m[key], rest, i);
      ParseRender(m, order[1..]);
      ParseMapTextStep(Render(m, order), i, (key, m[key]), Pairs(m, order[1..]));
    }
  }

  lemma {:induction false} PairsToMapOfPairs(m: map<string, string>, order: seq<string>)
    requires forall i :: 0 <= i < |order| ==> order[i] in m
    ensures PairsToMap(Pairs(m, order)) == map k | k in order :: m[k]
  {
    if order != [] {
      PairsToMapOfPairs(m, order[1..]);
      assert Pairs(m, order)[1..] == Pairs(m, order[1..]);
      var lhs := PairsToMap(Pairs(m, order));
      var rhs := map k | k in order :: m[k];
      assert lhs.Keys == rhs.Keys by {
        assert forall k :: k in order <==> k == order[0] || k in order[1..];
      }
    }
  }

  lemma {:induction false} PairsKeys(m: map<string, string>, order: seq<string>)
    requires forall i :: 0 <= i < |order| ==> order[i] in m
    ensures |Pairs(m, order)| == |order|
    ensures forall i :: 0 <= i < |order| ==> Pairs(m, order)[i] == (order[i], m[order[i]])
  {
    if order != [] {
      PairsKeys(m, order[1..]);
    }
  }

  /**
   * Round trip of the formatter: when no key holds '=' or a newline and no value a newline,
   * reading the output back line by line yields one pair per entry, no key twice, and
   * exactly the map's entries.
   */
  lemma MapTextRoundTrip(s: string, m: map<string, string>)
    requires Parseable(m)
    requires IsMapText(s, m)
    ensures ParseMapText(s).Some?
    ensures var ps := ParseMapText(s).value;
      && (forall i, j :: 0 <= i < j < |ps| ==> ps[i].0 != ps[j].0)
      && PairsToMap(ps) == m
  {
    var order :| IsKeyOrder(order, m) && s == Render(m, order);
    ParseRender(m, order);
    PairsKeys(m, order);
    PairsToMapOfPairs(m, order);
    MapOfKeyOrder(order, m);
  }

  lemma MapOfKeyOrder(order: seq<string>, m: map<string, string>)
    requires IsKeyOrder(order, m)
    ensures (map k | k in order :: m[k]) == m
  {
    var r := map k | k in order :: m[k];
    assert r.Keys == m.Keys;
    assert forall k :: k in r ==> r[k] == m[k];
  }

  // ================================================================ connectivity errors

  /** The substrings that mark a failure to reach the cluster. */
  const ConnectivityErrors: seq<string> :=
    ["i/o timeout", "context deadline exceeded", "connection refused", "Bad Request"]

  /** The source's loop over a pattern list, returning at the first pattern `s` contains. */
  function ContainsAny(s: string, patterns: seq<string>): (r: bool)
    ensures r <==> exists k :: 0 <= k < |patterns| && IsSubstring(patterns[k], s)
  {
    if patterns == [] then false
    else if Contains(s, patterns[0]) then true
    else
      var rest := ContainsAny(s, patterns[1..]);
      assert forall k :: 1 <= k < |patterns| ==> patterns[1..][k - 1] == patterns[k];
      rest
  }

  lemma ContainsAnyConnectivityError(s: string)
    ensures ContainsAny(s, ConnectivityErrors) <==>
      || IsSubstring("i/o timeout", s)
      || IsSubstring("context deadline exceeded", s)
      || IsSubstring("connection refused", s)
      || IsSubstring("Bad Request", s)
  {
    assert ConnectivityErrors[0] == "i/o timeout";
    assert ConnectivityErrors[1] == "context deadline exceeded";
    assert ConnectivityErrors[2] == "connection refused";
    assert ConnectivityErrors[3] == "Bad Request";
  }

  /** The banner shown instead of the pod list. */
  function ClusterAccessWarning(checkValue: string): string {
    "Error: " + checkValue + " (validate cluster access and restart)"
  }

  /**
   * CheckForError: a nil slice (None) is no error; otherwise only the first element is
   * inspected, and a non-nil empty slice would make the source panic on slice[0].
   */
  function CheckForError(slice: Option<seq<string>>): (r: (string, bool))
    requires slice.Some? ==> |slice.value| > 0
    ensures slice.None? ==> r == ("", false)
    ensures slice.Some? ==>
      (r.1 <==> || IsSubstring("i/o timeout", slice.value[0])
                || IsSubstring("context deadline exceeded", slice.value[0])
                || IsSubstring("connection refused", slice.value[0])
                || IsSubstring("Bad Request", slice.value[0]))
    ensures r.1 ==> slice.Some? && r.0 == "Error: " + slice.value[0] + " (validate cluster access and restart)"
    ensures !r.1 ==> r.0 == ""
  {
    match slice
    case None => ("", false)
    case Some(xs) =>
      var checkValue := xs[0];
      ContainsAnyConnectivityError(checkValue);
      if ContainsAny(checkValue, ConnectivityErrors)
      then (ClusterAccessWarning(checkValue), true)
      else ("", false)
  }

  lemma SubstringOfItself(s: string)
    ensures IsSubstring(s, s)
  {
    assert s[0..|s|] == s;
    assert OccursAt(s, s, 0);
  }

  /**
   * The package's test: each pattern on its own is recognised and echoed in the banner,
   * and a text holding none of them is not flagged.
   */
  lemma CheckForErrorRecognisesEachPattern(k: nat)
    requires k < |ConnectivityErrors|
    ensures CheckForError(Some([ConnectivityErrors[k]])) ==
      ("Error: " + ConnectivityErrors[k] + " (validate cluster access and restart)", true)
    ensures CheckForError(Some(["...no error found..."])) == ("", false)
  {
    var p := ConnectivityErrors[k];
    SubstringOfItself(p);
    assert ContainsAny(p, ConnectivityErrors);
    CleanTextHasNoPattern();
  }

  /** The test's clean text "...no error found..." holds none of the four patterns. */
  lemma CleanTextHasNoPattern()
    ensures !ContainsAny("...no error found...", ConnectivityErrors)
  {
    var clean := "...no error found...";
    forall k | 0 <= k < |clean|
      ensures clean[k] != 'i' && clean[k] != 'c' && clean[k] != 'B'
    {
    }
    NotSubstringByFirstChar("i/o timeout", clean);
    NotSubstringByFirstChar("context deadline exceeded", clean);
    NotSubstringByFirstChar("connection refused", clean);
    NotSubstringByFirstChar("Bad Request", clean);
    ContainsAnyConnectivityError(clean);
  }

  // ================================================================ terminal escape codes

  const Esc: char := '\U{1b}'

  /** The characters allowed between "ESC [" and the final letter. */
  predicate IsParamChar(c: char) {
    '0' <= c <= '9' || c == ';'
  }

  predicate IsFinalChar(c: char) {
    'a' <= c <= 'z' || 'A' <= c <= 'Z'
  }

  /** s[i..j] is a match of the pattern ESC '[' [0-9;]* [a-zA-Z]. */
  ghost predicate IsEscapeAt(s: string, i: nat, j: nat) {
    && i + 3 <= j <= |s|
    && s[i] == Esc && s[i + 1] == '['
    && (forall k :: i + 2 <= k < j - 1 ==> IsParamChar(s[k]))
    && IsFinalChar(s[j - 1])
  }

  /** The end of the longest run of parameter characters starting at `i`. */
  function ParamRunEnd(s: string, i: nat): (j: nat)
    requires i <= |s|
    ensures i <= j <= |s|
    ensures forall k :: i <= k < j ==> IsParamChar(s[k])
    ensures j < |s| ==> !IsParamChar(s[j])
    decreases |s| - i
  {
    if i < |s| && IsParamChar(s[i]) then ParamRunEnd(s, i + 1) else i
  }

  /** The end of the match starting at `i`, if one starts there; a match is unique when it exists. */
  function EscapeEnd(s: string, i: nat): (r: Option<nat>)
    requires i <= |s|
    ensures r.Some? ==> IsEscapeAt(s, i, r.value)
    ensures forall j: nat :: IsEscapeAt(s, i, j) ==> r == Some(j)
  {
    if i + 1 < |s| && s[i] == Esc && s[i + 1] == '[' then
      var j := ParamRunEnd(s, i + 2);
      assert forall e: nat :: IsEscapeAt(s, i, e) ==> e == j + 1 by {
        forall e: nat | IsEscapeAt(s, i, e) ensures e == j + 1 {
          assert j <= e - 1;
          assert e - 1 <= j;
        }
      }
      if j < |s| && IsFinalChar(s[j]) then Some(j + 1) else None
    else
      None
  }

  /** The text of s[i..] with every match deleted, scanning left to right. */
  function StripFrom(s: string, i: nat): string
    requires i <= |s|
    decreases |s| - i
  {
    if i == |s| then ""
    else match EscapeEnd(s, i)
      case Some(j) => StripFrom(s, j)
      case None => [s[i]] + StripFrom(s, i + 1)
  }

  lemma {:induction false} StripFromShorter(s: string, i: nat)
    requires i <= |s|
    ensures |StripFrom(s, i)| <= |s| - i
    decreases |s| - i
  {
    if i < |s| {
      match EscapeEnd(s, i)
      case Some(j) => StripFromShorter(s, j);
      case None => StripFromShorter(s, i + 1);
    }
  }

  lemma {:induction false} StripFromNoEscape(s: string, i: nat)
    requires i <= |s|
    requires Esc !in s[i..]
    ensures StripFrom(s, i) == s[i..]
    decreases |s| - i
  {
    if i < |s| {
      assert s[i] in s[i..];
      assert s[i + 1..] == s[i..][1..];
      StripFromNoEscape(s, i + 1);
    }
  }

  /** RemoveANSIEscapeCodes: deletes every match of ESC '[' [0-9;]* [a-zA-Z], leftmost first. */
  function RemoveAnsiEscapeCodes(input: string): (clean: string)
    ensures |clean| <= |input|
    ensures Esc !in input ==> clean == input
  {
    StripFromShorter(input, 0);
    StripFromUnchanged(input);
    StripFrom(input, 0)
  }

  lemma StripFromUnchanged(input: string)
    ensures Esc !in input ==> StripFrom(input, 0) == input
  {
    if Esc !in input {
      assert input[0..] == input;
      StripFromNoEscape(input, 0);
    }
  }

  // ---------------------------------------------------------------- what the stripper means

  /**
   * The regular expression's meaning, stated on the matches themselves: drop a match that
   * starts at the front, otherwise keep the first character, and go on with the rest.
   */
  ghost function DeleteEscapes(s: string): string
    decreases |s|
  {
    if s == [] then ""
    else if exists j: nat :: IsEscapeAt(s, 0, j) then
      var j: nat :| IsEscapeAt(s, 0, j);
      DeleteEscapes(s[j..])
    else
      [s[0]] + DeleteEscapes(s[1..])
  }

  lemma IsEscapeAtShift(s: string, i: nat, j: nat)
    requires i <= j <= |s|
    ensures IsEscapeAt(s[i..], 0, j - i) <==> IsEscapeAt(s, i, j)
  {
    if IsEscapeAt(s[i..], 0, j - i) {
      forall k | i + 2 <= k < j - 1 ensures IsParamChar(s[k]) {
        assert s[i..][k - i] == s[k];
      }
    }
  }

  lemma StripFromSkip(s: string, i: nat, j: nat)
    requires i < |s| && EscapeEnd(s, i) == Some(j)
    ensures StripFrom(s, i) == StripFrom(s, j)
  {
  }

  lemma StripFromKeep(s: string, i: nat)
    requires i < |s| && EscapeEnd(s, i).None?
    ensures StripFrom(s, i) == [s[i]] + StripFrom(s, i + 1)
  {
  }

  lemma DeleteEscapesAtMatch(s: string, i: nat, j: nat)
    requires i < |s| && IsEscapeAt(s, i, j)
    ensures DeleteEscapes(s[i..]) == DeleteEscapes(s[j..])
  {
    var t := s[i..];
    IsEscapeAtShift(s, i, j);
    assert IsEscapeAt(t, 0, j - i);
    var r := EscapeEnd(t, 0);
    assert forall e: nat :: IsEscapeAt(t, 0, e) ==> e == j - i;
    assert t[j - i..] == s[j..];
  }

  lemma DeleteEscapesNoMatch(s: string, i: nat)
    requires i < |s| && forall j: nat :: !IsEscapeAt(s, i, j)
    ensures DeleteEscapes(s[i..]) == [s[i]] + DeleteEscapes(s[i + 1..])
  {
    var t := s[i..];
    forall e: nat
      ensures !IsEscapeAt(t, 0, e)
    {
      if e <= |t| {
        IsEscapeAtShift(s, i, i + e);
      }
    }
    assert t[1..] == s[i + 1..];
  }

  lemma {:induction false} StripFromMeaning(s: string, i: nat)
    requires i <= |s|
    ensures StripFrom(s, i) == DeleteEscapes(s[i..])
    decreases |s| - i
  {
    if i < |s| {
      match EscapeEnd(s, i)
      case Some(j) =>
        StripFromSkip(s, i, j);
        DeleteEscapesAtMatch(s, i, j);
        StripFromMeaning(s, j);
      case None =>
        StripFromKeep(s, i);
        DeleteEscapesNoMatch(s, i);
        StripFromMeaning(s, i + 1);
    }
  }

  /** The scanner deletes exactly the leftmost non-overlapping matches of the pattern. */
  lemma RemoveAnsiDeletesMatches(input: string)
    ensures RemoveAnsiEscapeCodes(input) == DeleteEscapes(input)
  {
    StripFromMeaning(input, 0);
    assert input[0..] == input;
  }

  lemma {:induction false} StripFromSubsequence(s: string, i: nat)
    requires i <= |s|
    ensures IsSubsequence(StripFrom(s, i), s[i..])
    decreases |s| - i
  {
    if i < |s| {
      match EscapeEnd(s, i)
      case Some(j) =>
        StripFromSubsequence(s, j);
        SubsequenceDropPrefix(StripFrom(s, j), s[i..j], s[j..]);
        assert s[i..j] + s[j..] == s[i..];
      case None =>
        StripFromSubsequence(s, i + 1);
        SubsequencePrepend(StripFrom(s, i + 1), s[i + 1..], s[i]);
        assert [s[i]] + s[i + 1..] == s[i..];
    }
  }

  /** What survives keeps its order: the output is a subsequence of the input. */
  lemma RemoveAnsiSubsequence(input: string)
    ensures IsSubsequence(RemoveAnsiEscapeCodes(input), input)
  {
    StripFromSubsequence(input, 0);
    assert input[0..] == input;
  }

  lemma {:induction false} StripFromNoMatch(s: string, i: nat)
    requires i <= |s|
    requires forall k: nat, j: nat :: i <= k ==> !IsEscapeAt(s, k, j)
    ensures StripFrom(s, i) == s[i..]
    decreases |s| - i
  {
    if i < |s| {
      assert EscapeEnd(s, i).None?;
      StripFromNoMatch(s, i + 1);
      assert [s[i]] + s[i + 1..] == s[i..];
    }
  }

  lemma {:induction false} StripFromShrinks(s: string, i: nat, k: nat, j: nat)
    requires i <= k && IsEscapeAt(s, k, j)
    ensures |StripFrom(s, i)| < |s| - i
    decreases |s| - i
  {
    match EscapeEnd(s, i)
    case Some(e) =>
      StripFromShorter(s, e);
    case None =>
      assert k != i;
      StripFromShrinks(s, i + 1, k, j);
  }

  /** The output equals the input exactly when the input holds no match of the pattern. */
  lemma RemoveAnsiUnchangedIff(input: string)
    ensures RemoveAnsiEscapeCodes(input) == input <==> forall k: nat, j: nat :: !IsEscapeAt(input, k, j)
  {
    assert input[0..] == input;
    if forall k: nat, j: nat :: !IsEscapeAt(input, k, j) {
      StripFromNoMatch(input, 0);
    } else {
      var k: nat, j: nat :| IsEscapeAt(input, k, j);
      StripFromShrinks(input, 0, k, j);
    }
  }

  /** Text that cannot continue or start a match: no ESC, and not opening with '[', a parameter or a letter. */
  predicate IsPlainTail(b: string) {
    Esc !in b && (b != [] ==> b[0] != '[' && !IsParamChar(b[0]) && !IsFinalChar(b[0]))
  }

  lemma {:induction false} ParamRunEndAppend(a: string, b: string, i: nat)
    requires i <= |a| && IsPlainTail(b)
    ensures ParamRunEnd(a + b, i) == ParamRunEnd(a, i)
    decreases |a| - i
  {
    if i < |a| {
      ParamRunEndAppend(a, b, i + 1);
    }
  }

  lemma EscapeEndAppend(a: string, b: string, i: nat)
    requires i < |a| && IsPlainTail(b)
    ensures EscapeEnd(a + b, i) == EscapeEnd(a, i)
  {
    if i + 1 < |a| {
      ParamRunEndAppend(a, b, i + 2);
    }
  }

  lemma StripFromAppendEnd(a: string, b: string)
    requires IsPlainTail(b)
    ensures StripFrom(a + b, |a|) == StripFrom(a, |a|) + b
  {
    assert (a + b)[|a|..] == b;
    StripFromNoEscape(a + b, |a|);
  }

  lemma StripFromAppendSkip(a: string, b: string, i: nat, j: nat)
    requires i < |a| && IsPlainTail(b) && EscapeEnd(a, i) == Some(j)
    requires StripFrom(a + b, j) == StripFrom(a, j) + b
    ensures StripFrom(a + b, i) == StripFrom(a, i) + b
  {
    EscapeEndAppend(a, b, i);
    StripFromSkip(a, i, j);
    StripFromSkip(a + b, i, j);
  }

  lemma StripFromAppendKeep(a: string, b: string, i: nat)
    requires i < |a| && IsPlainTail(b) && EscapeEnd(a, i).None?
    requires StripFrom(a + b, i + 1) == StripFrom(a, i + 1) + b
    ensures StripFrom(a + b, i) == StripFrom(a, i) + b
  {
    EscapeEndAppend(a, b, i);
    StripFromKeep(a, i);
    StripFromKeep(a + b, i);
    assert (a + b)[i] == a[i];
  }

  lemma {:induction false} StripFromAppend(a: string, b: string, i: nat)
    requires i <= |a| && IsPlainTail(b)
    ensures StripFrom(a + b, i) == StripFrom(a, i) + b
    decreases |a| - i
  {
    if i == |a| {
      StripFromAppendEnd(a, b);
    } else {
      match EscapeEnd(a, i)
      case Some(j) =>
        StripFromAppend(a, b, j);
        StripFromAppendSkip(a, b, i, j);
      case None =>
        StripFromAppend(a, b, i + 1);
        StripFromAppendKeep(a, b, i);
    }
  }

  /** Appending plain text after any output neither loses it nor lets it complete an earlier match. */
  lemma RemoveAnsiAppendPlain(a: string, b: string)
    requires IsPlainTail(b)
    ensures RemoveAnsiEscapeCodes(a + b) == RemoveAnsiEscapeCodes(a) + b
  {
    StripFromAppend(a, b, 0);
  }
}
