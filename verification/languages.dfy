/** The language enumeration and the Google translator's supported-language lists. */
module Languages {

  /** The identity of an enumeration constant. Only the constants the translator singles out
      are named; every other constant is told apart by its enum name. */
  datatype LangName = Auto | ChineseCantonese | ChineseClassical | Other(name: string)

  /** A constant of the language enumeration together with its wire code. */
  datatype Lang = Lang(name: LangName, code: string)

  /** Enumeration constants are distinct: no two entries share a name. */
  predicate IsEnumeration(values: seq<Lang>) {
    forall i, j :: 0 <= i < j < |values| ==> values[i].name != values[j].name
  }

  /** Names of the constants Google cannot translate from or to. */
  const NotSupported: set<LangName> := {ChineseCantonese, ChineseClassical}

  /** `a` is `b` with some entries dropped and the rest kept in order. */
  predicate IsSubsequence<T(==)>(a: seq<T>, b: seq<T>)
    decreases |b|
  {
    |a| == 0 || (|b| > 0 && if a[0] == b[0] then IsSubsequence(a[1..], b[1..]) else IsSubsequence(a, b[1..]))
  }

  /** Kotlin's `Iterable.minus(Iterable)` against enumeration constants: drops every entry
      whose constant is among `names`. */
  function RemoveAll(values: seq<Lang>, names: set<LangName>): (r: seq<Lang>)
    ensures forall l :: l in r <==> l in values && l.name !in names
    ensures forall l :: multiset(r)[l] == if l.name in names then 0 else multiset(values)[l]
    ensures |r| <= |values|
  {
    if |values| == 0 then []
    else
      assert values == [values[0]] + values[1..];
      if values[0].name in names then RemoveAll(values[1..], names)
      else [values[0]] + RemoveAll(values[1..], names)
  }

  /** Some entry of `values` is for constant `name`. */
  predicate Mentions(values: seq<Lang>, name: LangName) {
    exists i :: 0 <= i < |values| && values[i].name == name
  }

  /** Entry `i` is the first entry of `values` for constant `name`. */
  predicate FirstFor(values: seq<Lang>, name: LangName, i: int) {
    0 <= i < |values| && values[i].name == name && forall j :: 0 <= j < i ==> values[j].name != name
  }

  /** Kotlin's `Iterable.minus(element)`: drops only the first entry for the constant. */
  function RemoveFirst(values: seq<Lang>, name: LangName): (r: seq<Lang>)
    ensures forall l :: l in r ==> l in values
    ensures |r| == if Mentions(values, name) then |values| - 1 else |values|
    ensures !Mentions(values, name) ==> r == values
    ensures forall i :: FirstFor(values, name, i) ==> r == values[..i] + values[i + 1..]
  {
    if |values| == 0 then []
    else if values[0].name == name then
      assert FirstFor(values, name, 0);
      values[1..]
    else
      var rest := RemoveFirst(values[1..], name);
      TailMentions(values, name);
      ConsSplits(values);
      [values[0]] + rest
  }

  /** With a head for another constant, the first entry for `name` moves one place in the tail. */
  lemma TailMentions(values: seq<Lang>, name: LangName)
    requires |values| > 0 && values[0].name != name
    ensures Mentions(values, name) <==> Mentions(values[1..], name)
    ensures forall i :: FirstFor(values, name, i) ==> i >= 1 && FirstFor(values[1..], name, i - 1)
  {
    if Mentions(values, name) {
      var i :| 0 <= i < |values| && values[i].name == name;
      assert values[1..][i - 1] == values[i];
    }
    if Mentions(values[1..], name) {
      var i :| 0 <= i < |values[1..]| && values[1..][i].name == name;
      assert values[i + 1] == values[1..][i];
    }
    forall i | FirstFor(values, name, i)
      ensures i >= 1 && FirstFor(values[1..], name, i - 1)
    {
      forall j | 0 <= j < i - 1
        ensures values[1..][j].name != name
      {
        assert values[1..][j] == values[j + 1];
      }
    }
  }

  /** Removing position `i` of `values` is keeping the head and removing position `i - 1` of
      its tail. */
  lemma ConsSplits(values: seq<Lang>)
    requires |values| > 0
    ensures forall i {:trigger values[..i]} :: 1 <= i < |values| ==>
      [values[0]] + (values[1..][..i - 1] + values[1..][i..]) == values[..i] + values[i + 1..]
  {
    forall i | 1 <= i < |values|
      ensures [values[0]] + (values[1..][..i - 1] + values[1..][i..]) == values[..i] + values[i + 1..]
    {
      assert values[..i] == [values[0]] + values[1..][..i - 1];
      assert values[1..][i..] == values[i + 1..];
    }
  }

  /** Languages the translator accepts as a source (`supportedSourceLanguages`). */
  function SupportedSourceLanguages(sortedValues: seq<Lang>): (r: seq<Lang>)
    ensures IsSubsequence(r, sortedValues)
    ensures forall l :: l in r <==> l in sortedValues && l.name != ChineseCantonese && l.name != ChineseClassical
  {
    RemoveAllKeepsOrder(sortedValues, NotSupported);
    RemoveAll(sortedValues, NotSupported)
  }

  /** Languages the translator accepts as a target (`supportedTargetLanguages`). */
  function SupportedTargetLanguages(sortedValues: seq<Lang>): (r: seq<Lang>)
    ensures forall l :: l in r ==> l in sortedValues && l.name != ChineseCantonese && l.name != ChineseClassical
    ensures IsEnumeration(sortedValues) ==> r == RemoveAll(sortedValues, {Auto, ChineseCantonese, ChineseClassical})
  {
    if IsEnumeration(sortedValues) then
      RemoveAllKeepsEnumeration(sortedValues, NotSupported);
      RemoveFirstOfEnumeration(RemoveAll(sortedValues, NotSupported), Auto);
      RemoveAllTwice(sortedValues, NotSupported, {Auto});
      assert NotSupported + {Auto} == {Auto, ChineseCantonese, ChineseClassical};
      RemoveFirst(RemoveAll(sortedValues, NotSupported), Auto)
    else
      RemoveFirst(RemoveAll(sortedValues, NotSupported), Auto)
  }

  lemma {:induction false} RemoveAllKeepsOrder(values: seq<Lang>, names: set<LangName>)
    ensures IsSubsequence(RemoveAll(values, names), values)
    decreases |values|
  {
    if |values| > 0 {
      RemoveAllKeepsOrder(values[1..], names);
      var rest := RemoveAll(values[1..], names);
      if values[0].name !in names {
        assert ([values[0]] + rest)[1..] == rest;
      } else {
        SkipHeadKeepsSubsequence(rest, values);
      }
    }
  }

  /** Dropping the head of the longer sequence keeps a subsequence relation. */
  lemma {:induction false} SkipHeadKeepsSubsequence<T>(a: seq<T>, b: seq<T>)
    requires |b| > 0 && IsSubsequence(a, b[1..])
    ensures IsSubsequence(a, b)
    decreases |a| + |b|
  {
    if |a| > 0 && a[0] == b[0] {
      // Matching the head of `a` against `b[0]` leaves `a[1..]` to embed in `b[1..]`.
      SubsequenceDropHead(a, b[1..]);
    }
  }

  lemma {:induction false} SubsequenceDropHead<T>(a: seq<T>, b: seq<T>)
    requires |a| > 0 && IsSubsequence(a, b)
    ensures IsSubsequence(a[1..], b)
    decreases |a| + |b|
  {
    if a[0] != b[0] {
      SubsequenceDropHead(a, b[1..]);
      SkipHeadKeepsSubsequence(a[1..], b);
    } else {
      if |a[1..]| > 0 {
        SkipHeadKeepsSubsequence(a[1..], b);
      }
    }
  }

  /** Removing two groups of constants one after the other removes their union. */
  lemma {:induction false} RemoveAllTwice(values: seq<Lang>, a: set<LangName>, b: set<LangName>)
    ensures RemoveAll(RemoveAll(values, a), b) == RemoveAll(values, a + b)
    decreases |values|
  {
    if |values| > 0 {
      RemoveAllTwice(values[1..], a, b);
      var rest := RemoveAll(values[1..], a);
      if values[0].name !in a {
        assert ([values[0]] + rest)[1..] == rest;
      }
    }
  }

  /** Filtering an enumeration leaves an enumeration. */
  lemma {:induction false} RemoveAllKeepsEnumeration(values: seq<Lang>, names: set<LangName>)
    requires IsEnumeration(values)
    ensures IsEnumeration(RemoveAll(values, names))
    decreases |values|
  {
    if |values| > 0 {
      TailOfEnumeration(values);
      RemoveAllKeepsEnumeration(values[1..], names);
      if values[0].name !in names {
        ConsEnumeration(values[0], RemoveAll(values[1..], names));
      }
    }
  }

  /** The tail of an enumeration is an enumeration that does not repeat the head's constant. */
  lemma TailOfEnumeration(values: seq<Lang>)
    requires |values| > 0 && IsEnumeration(values)
    ensures IsEnumeration(values[1..])
    ensures forall l :: l in values[1..] ==> l.name != values[0].name
  {
    forall i, j | 0 <= i < j < |values[1..]|
      ensures values[1..][i].name != values[1..][j].name
    {
      assert values[1..][i] == values[i + 1] && values[1..][j] == values[j + 1];
    }
    forall l | l in values[1..]
      ensures l.name != values[0].name
    {
      var k :| 0 <= k < |values[1..]| && values[1..][k] == l;
      assert values[k + 1] == l;
    }
  }

  /** Putting a new constant in front of an enumeration keeps it one. */
  lemma ConsEnumeration(x: Lang, rest: seq<Lang>)
    requires IsEnumeration(rest) && forall l :: l in rest ==> l.name != x.name
    ensures IsEnumeration([x] + rest)
  {
    var r := [x] + rest;
    forall i, j | 0 <= i < j < |r|
      ensures r[i].name != r[j].name
    {
      assert r[j] == rest[j - 1];
      if i > 0 {
        assert r[i] == rest[i - 1];
      }
    }
  }

  /** In an enumeration, dropping the first entry for a constant drops every entry for it. */
  lemma {:induction false} RemoveFirstOfEnumeration(values: seq<Lang>, name: LangName)
    requires IsEnumeration(values)
    ensures RemoveFirst(values, name) == RemoveAll(values, {name})
    decreases |values|
  {
    if |values| > 0 {
      TailOfEnumeration(values);
      RemoveFirstOfEnumeration(values[1..], name);
      if values[0].name == name {
        NoEntryNoRemoval(values[1..], name);
      }
    }
  }

  lemma {:induction false} NoEntryNoRemoval(values: seq<Lang>, name: LangName)
    requires forall i :: 0 <= i < |values| ==> values[i].name != name
    ensures RemoveAll(values, {name}) == values
    decreases |values|
  {
    if |values| > 0 {
      NoEntryNoRemoval(values[1..], name);
      assert [values[0]] + values[1..] == values;
    }
  }

  /** The source list is the enumeration in its own order, minus exactly Cantonese and
      Classical Chinese; AUTO stays. */
  lemma SupportedSourceLanguagesSpec(sortedValues: seq<Lang>)
    ensures var r := SupportedSourceLanguages(sortedValues);
      && IsSubsequence(r, sortedValues)
      && (forall l :: l in r <==> l in sortedValues && l.name != ChineseCantonese && l.name != ChineseClassical)
  {
    RemoveAllKeepsOrder(sortedValues, NotSupported);
  }

  /** The target list is the enumeration in its own order, minus AUTO, Cantonese and
      Classical Chinese. `minus(Lang.AUTO)` removes only the first AUTO, which is every AUTO
      because enumeration constants are distinct. */
  lemma SupportedTargetLanguagesSpec(sortedValues: seq<Lang>)
    requires IsEnumeration(sortedValues)
    ensures SupportedTargetLanguages(sortedValues) == RemoveAll(sortedValues, {Auto, ChineseCantonese, ChineseClassical})
    ensures var r := SupportedTargetLanguages(sortedValues);
      && IsSubsequence(r, sortedValues)
      && (forall l :: l in r <==> l in sortedValues && l.name !in {Auto, ChineseCantonese, ChineseClassical})
  {
    SupportedTargetKeepsOrder(sortedValues);
    SupportedTargetMembers(sortedValues);
  }

  lemma SupportedTargetKeepsOrder(sortedValues: seq<Lang>)
    requires IsEnumeration(sortedValues)
    ensures IsSubsequence(SupportedTargetLanguages(sortedValues), sortedValues)
  {
    RemoveAllKeepsOrder(sortedValues, {Auto, ChineseCantonese, ChineseClassical});
  }

  lemma SupportedTargetMembers(sortedValues: seq<Lang>)
    requires IsEnumeration(sortedValues)
    ensures var r := SupportedTargetLanguages(sortedValues);
      forall l :: l in r <==> l in sortedValues && l.name !in {Auto, ChineseCantonese, ChineseClassical}
  {
  }
}
