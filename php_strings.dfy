/** The PHP values and string built-ins the plugin relies on, over `string` = seq<char>. */
module PhpStrings {

  /** PHP's null-or-value, as returned by lookups that may find nothing. */
  datatype Option<+T> = None | Some(value: T)

  /** A PHP scalar as it sits in the plugin's option array, in submitted form input or in a query var. */
  datatype Value = Null | Bool(b: bool) | Str(s: string)

  /** PHP's string conversion of a scalar: true is "1", false and null are "". */
  function AsString(v: Value): string
  {
    match v
    case Null => ""
    case Bool(b) => if b then "1" else ""
    case Str(s) => s
  }

  /** PHP truthiness of a string: only "" and "0" are falsy. */
  predicate Truthy(s: string)
  {
    s != "" && s != "0"
  }

  /** The characters PHP's trim() strips by default: space, tab, newline, carriage return, NUL, vertical tab. */
  const Blanks: set<char> := {' ', '\t', '\n', '\r', '\U{0000}', '\U{000B}'}

  predicate StartsWith(s: string, p: string)
  {
    |p| <= |s| && s[..|p|] == p
  }

  /** PHP ltrim($s, $cs). */
  function TrimLeft(s: string, cs: set<char>): (r: string)
    ensures |r| <= |s| && r == s[|s| - |r|..]
    ensures forall i :: 0 <= i < |s| - |r| ==> s[i] in cs
    ensures r == [] || r[0] !in cs
  {
    if |s| > 0 && s[0] in cs then TrimLeft(s[1..], cs) else s
  }

  /** PHP rtrim($s, $cs). */
  function TrimRight(s: string, cs: set<char>): (r: string)
    ensures |r| <= |s| && r == s[..|r|]
    ensures forall i :: |r| <= i < |s| ==> s[i] in cs
    ensures r == [] || r[|r| - 1] !in cs
  {
    if |s| > 0 && s[|s| - 1] in cs then TrimRight(s[..|s| - 1], cs) else s
  }

  /** PHP trim($s, $cs): s without its leading and trailing characters of cs. */
  function Trim(s: string, cs: set<char>): (r: string)
    ensures |r| <= |s|
    ensures r == [] || (r[0] !in cs && r[|r| - 1] !in cs)
  {
    TrimRight(TrimLeft(s, cs), cs)
  }

  /** What trim keeps is a slice of its input, and only characters of cs are dropped around it. */
  lemma TrimIsSlice(s: string, cs: set<char>)
    ensures exists i, j :: 0 <= i <= j <= |s| && Trim(s, cs) == s[i..j]
                        && (forall k :: 0 <= k < i ==> s[k] in cs)
                        && (forall k :: j <= k < |s| ==> s[k] in cs)
  {
    var l := TrimLeft(s, cs);
    SliceOfSuffix(s, cs, l, TrimRight(l, cs));
  }

  /** A prefix of a suffix, each dropping only characters of cs, is a slice dropping only those. */
  lemma SliceOfSuffix(s: string, cs: set<char>, l: string, r: string)
    requires |l| <= |s| && l == s[|s| - |l|..] && (forall k :: 0 <= k < |s| - |l| ==> s[k] in cs)
    requires |r| <= |l| && r == l[..|r|] && (forall k :: |r| <= k < |l| ==> l[k] in cs)
    ensures exists i, j :: 0 <= i <= j <= |s| && r == s[i..j]
                        && (forall k :: 0 <= k < i ==> s[k] in cs)
                        && (forall k :: j <= k < |s| ==> s[k] in cs)
  {
    var i := |s| - |l|;
    var j := i + |r|;
    assert r == s[i..j];
    assert forall k :: j <= k < |s| ==> s[k] == l[k - i];
  }

  /** Trimming leaves a string that starts and ends outside cs as it is. */
  lemma TrimKeeps(s: string, cs: set<char>)
    requires s == [] || (s[0] !in cs && s[|s| - 1] !in cs)
    ensures Trim(s, cs) == s
  {
  }

  /** One stripped character on each side of a string that starts and ends outside cs. */
  lemma TrimPadded(mid: string, a: char, b: char, cs: set<char>)
    requires a in cs && b in cs && |mid| > 0 && mid[0] !in cs && mid[|mid| - 1] !in cs
    ensures Trim([a] + mid + [b], cs) == mid
  {
    var s := [a] + mid + [b];
    assert s[1..] == mid + [b];
    assert TrimLeft(s, cs) == mid + [b];
    assert (mid + [b])[..|mid|] == mid;
  }

  /** PHP strpos($s, $c) for a one-character needle: the first position of c. */
  function IndexOf(s: string, c: char): (r: Option<nat>)
    ensures r.None? <==> c !in s
    ensures r.Some? ==> r.value < |s| && s[r.value] == c && c !in s[..r.value]
  {
    if s == [] then None
    else if s[0] == c then Some(0)
    else match IndexOf(s[1..], c)
      case None => None
      case Some(i) =>
        assert s[1..][..i] == s[1..i + 1];
        Some(i + 1)
  }

  /** strrpos with a negative offset: the last position of c strictly before n. */
  function LastIndexBefore(s: string, c: char, n: int): (r: Option<nat>)
    requires n <= |s|
    ensures r.Some? ==> r.value < n && s[r.value] == c
    ensures forall k :: (if r.Some? then r.value + 1 else 0) <= k < n ==> s[k] != c
    decreases n
  {
    if n <= 0 then None
    else if s[n - 1] == c then Some(n - 1)
    else LastIndexBefore(s, c, n - 1)
  }

  /** Whether t occurs in s starting at position i. */
  predicate OccursAt(s: string, t: string, i: int)
  {
    0 <= i <= |s| - |t| && s[i..i + |t|] == t
  }

  /** Whether t occurs in s at some position. */
  predicate Occurs(s: string, t: string)
  {
    exists i :: 0 <= i <= |s| - |t| && OccursAt(s, t, i)
  }

  lemma OccursInTail(s: string, t: string)
    requires |s| > 0
    ensures Occurs(s[1..], t) ==> Occurs(s, t)
  {
    if Occurs(s[1..], t) {
      var i :| 0 <= i <= |s[1..]| - |t| && OccursAt(s[1..], t, i);
      assert s[1..][i..i + |t|] == s[i + 1..i + 1 + |t|];
      assert OccursAt(s, t, i + 1);
    }
  }

  lemma OccursAtStart(s: string, t: string)
    requires StartsWith(s, t)
    ensures Occurs(s, t)
  {
    assert OccursAt(s, t, 0);
  }

  /** PHP str_replace($search, $replace, $subject): every non-overlapping occurrence, left to right;
      an empty search string leaves the subject as it is. */
  function StrReplace(subject: string, search: string, replace: string): (r: string)
    ensures search == [] || !Occurs(subject, search) ==> r == subject
    decreases |subject|
  {
    if search == [] || |subject| < |search| then subject
    else if StartsWith(subject, search) then
      OccursAtStart(subject, search);
      replace + StrReplace(subject[|search|..], search, replace)
    else
      OccursInTail(subject, search);
      [subject[0]] + StrReplace(subject[1..], search, replace)
  }

  /** A subject that starts with the search string gets the replacement in front, and the rest is
      replaced in turn. */
  lemma StrReplaceAtStart(search: string, rest: string, replace: string)
    requires search != []
    ensures StrReplace(search + rest, search, replace) == replace + StrReplace(rest, search, replace)
  {
    assert (search + rest)[..|search|] == search;
    assert (search + rest)[|search|..] == rest;
  }
}
