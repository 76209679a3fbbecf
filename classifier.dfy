/** The keyword classifier of app.js: the colour and tag keyword tables,
    `suggestColor` and `suggestTags`, each as a loop method proved equal to
    a declarative specification, and the properties of those
    specifications. */
module Classifier {
  import opened Text
  import opened Seqs

  /** The four note colours; `Gray` is the fallback. */
  datatype Color = Red | Blue | Green | Gray

  /** One entry of COLOR_KEYWORDS: a colour and its trigger words. */
  datatype Bucket = Bucket(color: Color, keywords: seq<string>)

  /** COLOR_KEYWORDS, in the iteration order of `Object.entries`. */
  const ColorKeywords: seq<Bucket> := [
    Bucket(Red, ["entregar", "pendiente", "tarea", "urgente", "hacer", "deadline", "importante"]),
    Bucket(Blue, ["idea", "recordar", "pensar", "inspiraci\U{00F3}n", "notas", "brainstorm", "concepto"]),
    Bucket(Green, ["comprar", "pagar", "pago", "recibo", "mercado", "tienda", "dinero", "factura"])
  ]

  /** TAG_KEYWORDS, in declared order. */
  const TagKeywords: seq<string> := [
    "universidad", "trabajo", "compras", "salud", "personal",
    "familia", "proyecto", "estudio", "ejercicio", "viaje"
  ]

  /** The tag that stands for "no topic found". */
  const General: string := "General"

  /** At most this many tags are suggested. */
  const MaxSuggestedTags: nat := 3

  /** Some trigger word of `b` occurs in `lowered`. */
  predicate BucketMatches(b: Bucket, lowered: string) {
    exists k | 0 <= k < |b.keywords| :: Contains(lowered, b.keywords[k])
  }

  /** The position of the earliest bucket that matches, or |buckets| when
      none does. */
  function FirstMatchingBucket(buckets: seq<Bucket>, lowered: string): (i: nat)
    ensures i <= |buckets|
    ensures i < |buckets| ==> BucketMatches(buckets[i], lowered)
    ensures forall j :: 0 <= j < i ==> !BucketMatches(buckets[j], lowered)
  {
    if buckets == [] then 0
    else if BucketMatches(buckets[0], lowered) then 0
    else 1 + FirstMatchingBucket(buckets[1..], lowered)
  }

  /** What `suggestColor(text)` returns: the colour of the earliest
      matching bucket of the lower-cased text, else gray. */
  function ColorFor(text: string): Color {
    var i := FirstMatchingBucket(ColorKeywords, Lower(text));
    if i < |ColorKeywords| then ColorKeywords[i].color else Gray
  }

  /** `suggestColor`: nested loops over the buckets and their words, with
      an early return on the first word found. */
  method SuggestColor(text: string) returns (c: Color)
    ensures c == ColorFor(text)
  {
    var normalized := Lower(text);
    var i := 0;
    while i < |ColorKeywords|
      invariant 0 <= i <= |ColorKeywords|
      invariant forall j :: 0 <= j < i ==> !BucketMatches(ColorKeywords[j], normalized)
    {
      var bucket := ColorKeywords[i];
      var k := 0;
      while k < |bucket.keywords|
        invariant 0 <= k <= |bucket.keywords|
        invariant forall m :: 0 <= m < k ==> !Contains(normalized, bucket.keywords[m])
      {
        if Contains(normalized, bucket.keywords[k]) {
          return bucket.color;
        }
        k := k + 1;
      }
      i := i + 1;
    }
    return Gray;
  }

  /** Bucket priority written out: red words beat blue words beat green
      words, wherever they stand in the text. */
  lemma ColorForByPriority(text: string)
    ensures var t := Lower(text);
      ColorFor(text) ==
        if BucketMatches(ColorKeywords[0], t) then Red
        else if BucketMatches(ColorKeywords[1], t) then Blue
        else if BucketMatches(ColorKeywords[2], t) then Green
        else Gray
  {
    var t := Lower(text);
    var i := FirstMatchingBucket(ColorKeywords, t);
    assert i == 0 <==> BucketMatches(ColorKeywords[0], t);
    if i > 0 {
      assert !BucketMatches(ColorKeywords[0], t);
      assert i == 1 <==> BucketMatches(ColorKeywords[1], t);
      if i > 1 {
        assert !BucketMatches(ColorKeywords[1], t);
        assert i == 2 <==> BucketMatches(ColorKeywords[2], t);
      }
    }
  }

  /** Gray exactly when no trigger word of any bucket occurs. */
  lemma ColorForGrayIff(text: string)
    ensures ColorFor(text) == Gray <==>
      forall b, k :: 0 <= b < |ColorKeywords| && 0 <= k < |ColorKeywords[b].keywords| ==>
        !Contains(Lower(text), ColorKeywords[b].keywords[k])
  {
    var t := Lower(text);
    var i := FirstMatchingBucket(ColorKeywords, t);
    if i < |ColorKeywords| {
      var k :| 0 <= k < |ColorKeywords[i].keywords| && Contains(t, ColorKeywords[i].keywords[k]);
    } else {
      forall b, k | 0 <= b < |ColorKeywords| && 0 <= k < |ColorKeywords[b].keywords|
        ensures !Contains(t, ColorKeywords[b].keywords[k])
      {
        assert !BucketMatches(ColorKeywords[b], t);
      }
    }
  }

  /** No trigger word contains whitespace at its start. */
  lemma KeywordsStartWithLetters()
    ensures forall b, k :: 0 <= b < |ColorKeywords| && 0 <= k < |ColorKeywords[b].keywords| ==>
      ColorKeywords[b].keywords[k] != [] && !IsWhitespace(ColorKeywords[b].keywords[k][0])
    ensures forall k :: 0 <= k < |TagKeywords| ==> TagKeywords[k] != [] && !IsWhitespace(TagKeywords[k][0])
  {
  }

  /** A non-empty word led by a non-space is never found in blank text. */
  lemma BlankContainsNoWord(text: string, w: string)
    requires IsBlank(text) && w != [] && !IsWhitespace(w[0])
    ensures !Contains(Lower(text), w)
  {
    var t := Lower(text);
    forall i | 0 <= i <= |t| - |w| ensures !OccursAt(t, w, i) {
      assert t[i..i + |w|][0] == t[i] == text[i];
    }
  }

  /** The keywords of `keywords` found in `lowered`, in list order. */
  function MatchedKeywords(keywords: seq<string>, lowered: string): (r: seq<string>)
    ensures forall w :: w in r <==> w in keywords && Contains(lowered, w)
  {
    Filter(keywords, (w: string) => Contains(lowered, w))
  }

  /** The tags suggested for `lowered` from the keyword list `keywords`:
      the capitalised first three keywords found, or ["General"]. */
  function SuggestedFrom(keywords: seq<string>, lowered: string): (r: seq<string>)
    ensures 1 <= |r| <= MaxSuggestedTags
  {
    var found := MatchedKeywords(keywords, lowered);
    if found == [] then [General]
    else Map(if |found| <= MaxSuggestedTags then found else found[..MaxSuggestedTags], Capitalize)
  }

  /** What `suggestTags(text)` returns. */
  function TagsFor(text: string): (r: seq<string>)
    ensures 1 <= |r| <= MaxSuggestedTags
  {
    SuggestedFrom(TagKeywords, Lower(text))
  }

  /** Scanning one more keyword appends it when it is found. */
  lemma MatchedKeywordsStep(keywords: seq<string>, lowered: string, i: nat)
    requires i < |keywords|
    ensures MatchedKeywords(keywords[..i + 1], lowered) ==
      MatchedKeywords(keywords[..i], lowered) + (if Contains(lowered, keywords[i]) then [keywords[i]] else [])
  {
    assert keywords[..i + 1] == keywords[..i] + [keywords[i]];
    FilterAppend(keywords[..i], [keywords[i]], (w: string) => Contains(lowered, w));
  }

  /** Once the scanned prefix has yielded three keywords, or the whole list
      has been scanned, the rest of the list does not change the result. */
  lemma SuggestedFromPrefix(keywords: seq<string>, lowered: string, i: nat)
    requires i <= |keywords|
    requires |MatchedKeywords(keywords[..i], lowered)| == MaxSuggestedTags
      || (i == |keywords| && |MatchedKeywords(keywords, lowered)| < MaxSuggestedTags)
    ensures var p := MatchedKeywords(keywords[..i], lowered);
      SuggestedFrom(keywords, lowered) == if p == [] then [General] else Map(p, Capitalize)
  {
    var p := MatchedKeywords(keywords[..i], lowered);
    assert keywords[..i] + keywords[i..] == keywords;
    FilterAppend(keywords[..i], keywords[i..], (w: string) => Contains(lowered, w));
    var all := MatchedKeywords(keywords, lowered);
    assert all == p + MatchedKeywords(keywords[i..], lowered);
    if i == |keywords| {
      assert keywords[..i] == keywords;
    } else {
      assert all[..MaxSuggestedTags] == p;
    }
  }

  /** `suggestTags`: one pass over TAG_KEYWORDS on the lower-cased
      text. */
  method SuggestTags(text: string) returns (tags: seq<string>)
    ensures tags == TagsFor(text)
  {
    tags := CollectTags(TagKeywords, Lower(text));
  }

  /** The loop of `suggestTags` over a keyword list: push the capitalised
      keyword on each hit, break once three tags are collected, and fall
      back to ["General"]. */
  method CollectTags(keywords: seq<string>, normalized: string) returns (tags: seq<string>)
    ensures tags == SuggestedFrom(keywords, normalized)
  {
    var found: seq<string> := [];
    ghost var matched: seq<string> := [];
    var i := 0;
    while i < |keywords|
      invariant 0 <= i <= |keywords|
      invariant matched == MatchedKeywords(keywords[..i], normalized)
      invariant found == Map(matched, Capitalize)
      invariant |found| < MaxSuggestedTags
    {
      var keyword := keywords[i];
      MatchedKeywordsStep(keywords, normalized, i);
      if Contains(normalized, keyword) {
        MapAppend(matched, keyword, Capitalize);
        found := found + [Capitalize(keyword)];
        matched := matched + [keyword];
        if |found| >= MaxSuggestedTags {
          i := i + 1;
          break;
        }
      }
      i := i + 1;
    }
    if |found| < MaxSuggestedTags {
      assert i == |keywords| && keywords[..i] == keywords;
    }
    SuggestedFromPrefix(keywords, normalized, i);
    assert |found| > 0 <==> matched != [];
    tags := if |found| > 0 then found else [General];
  }

  /** The capitalised tag keywords, as `suggestTags` emits them
      ("Universidad", "Trabajo", ..., "Viaje"). */
  const TagNames: seq<string> := Map(TagKeywords, Capitalize)

  /** Two keywords of TAG_KEYWORDS differ in their first or second letter,
      and none starts with "g". */
  lemma TagKeywordsShape()
    ensures forall k :: 0 <= k < |TagKeywords| ==>
      |TagKeywords[k]| >= 2 && 'a' <= TagKeywords[k][0] <= 'z' && TagKeywords[k][0] != 'g'
    ensures forall i, j :: 0 <= i < j < |TagKeywords| ==>
      TagKeywords[i][0] != TagKeywords[j][0] || TagKeywords[i][1] != TagKeywords[j][1]
  {
  }

  /** TagNames are pairwise different and none of them is "General". */
  lemma TagNamesFacts()
    ensures Distinct(TagNames)
    ensures General !in TagNames
  {
    TagKeywordsShape();
    forall i, j | 0 <= i < j < |TagNames| ensures TagNames[i] != TagNames[j] {
      var a, b := TagKeywords[i], TagKeywords[j];
      assert TagNames[i][0] == ToUpper(a[0]) && TagNames[j][0] == ToUpper(b[0]);
      assert TagNames[i][1] == a[1] && TagNames[j][1] == b[1];
    }
    forall k | 0 <= k < |TagNames| ensures TagNames[k] != General {
      assert TagNames[k][0] == ToUpper(TagKeywords[k][0]);
    }
  }

  /** The tags suggested when some tag keyword occurs: the capitalised
      forms of the keywords found, in TAG_KEYWORDS order (not text order),
      as many as were found up to three. */
  lemma TagsForListOrder(text: string)
    ensures var found := MatchedKeywords(TagKeywords, Lower(text));
      found != [] ==>
        |TagsFor(text)| == (if |found| < MaxSuggestedTags then |found| else MaxSuggestedTags)
        && IsSubsequence(TagsFor(text), TagNames)
        && forall j :: 0 <= j < |TagsFor(text)| ==> TagsFor(text)[j] == Capitalize(found[j])
  {
    var t := Lower(text);
    var found := MatchedKeywords(TagKeywords, t);
    if found != [] {
      var n := if |found| < MaxSuggestedTags then |found| else MaxSuggestedTags;
      assert found[..n] == if |found| <= MaxSuggestedTags then found else found[..MaxSuggestedTags];
      FilterIsSubsequence(TagKeywords, (w: string) => Contains(t, w));
      PrefixIsSubsequence(found, n);
      SubsequenceTransitive(found[..n], found, TagKeywords);
      MapSubsequence(found[..n], TagKeywords, Capitalize);
      TagNamesFacts();
    }
  }

  /** `suggestTags` never suggests the same tag twice. */
  lemma TagsForDistinct(text: string)
    ensures Distinct(TagsFor(text))
  {
    var found := MatchedKeywords(TagKeywords, Lower(text));
    if found != [] {
      TagsForListOrder(text);
      TagNamesFacts();
      SubsequenceDistinct(TagsFor(text), TagNames);
    }
  }

  /** `suggestTags` falls back to exactly ["General"] if and only if no tag
      keyword occurs in the lower-cased text. */
  lemma TagsForGeneralIff(text: string)
    ensures TagsFor(text) == [General] <==>
      forall k :: 0 <= k < |TagKeywords| ==> !Contains(Lower(text), TagKeywords[k])
  {
    var t := Lower(text);
    var found := MatchedKeywords(TagKeywords, t);
    if found != [] {
      TagsForListOrder(text);
      TagNamesFacts();
      FilterIsSubsequence(TagKeywords, (w: string) => Contains(t, w));
      SubsequenceElements(TagsFor(text), TagNames);
      assert TagsFor(text)[0] in TagNames;
      assert found[0] in found;
    } else {
      forall k | 0 <= k < |TagKeywords| ensures !Contains(t, TagKeywords[k]) {
        assert TagKeywords[k] in TagKeywords;
      }
    }
  }

  /** Whitespace-only text is classified gray with the tag "General", so
      the blank-text guard of `updateSuggestions` agrees with the
      classifier. */
  lemma BlankTextSuggestsDefaults(text: string)
    requires IsBlank(text)
    ensures ColorFor(text) == Gray
    ensures TagsFor(text) == [General]
  {
    KeywordsStartWithLetters();
    forall b, k | 0 <= b < |ColorKeywords| && 0 <= k < |ColorKeywords[b].keywords|
      ensures !Contains(Lower(text), ColorKeywords[b].keywords[k])
    {
      BlankContainsNoWord(text, ColorKeywords[b].keywords[k]);
    }
    ColorForGrayIff(text);
    forall k | 0 <= k < |TagKeywords| ensures !Contains(Lower(text), TagKeywords[k]) {
      BlankContainsNoWord(text, TagKeywords[k]);
    }
    TagsForGeneralIff(text);
  }

  /** "Proyecto de universidad urgente" is red, by the red word "urgente". */
  lemma ExampleUrgentIsRed()
    ensures ColorFor("Proyecto de universidad urgente") == Red
  {
    var text := "Proyecto de universidad urgente";
    LowerUrgentProject(text);
    UrgentProjectHits(Lower(text));
    RedWhenUrgent(text);
  }

  /** Text whose lower-cased form contains "urgente" is red, whatever else
      it contains. */
  lemma RedWhenUrgent(text: string)
    requires Contains(Lower(text), "urgente")
    ensures ColorFor(text) == Red
  {
    ColorForByPriority(text);
    assert ColorKeywords[0].keywords[3] == "urgente";
  }

  /** Lower-casing the example text changes only its first letter. */
  lemma LowerUrgentProject(text: string)
    requires text == "Proyecto de universidad urgente"
    ensures Lower(text) == "proyecto de universidad urgente"
  {
    assert Lower(text)[0] == 'p';
  }

  /** "universidad", "proyecto" and "urgente" occur in "proyecto de
      universidad urgente". */
  lemma UrgentProjectHits(t: string)
    requires t == "proyecto de universidad urgente"
    ensures Contains(t, "universidad") && Contains(t, "proyecto") && Contains(t, "urgente")
  {
    assert OccursAt(t, "universidad", 12);
    assert OccursAt(t, "proyecto", 0);
    assert OccursAt(t, "urgente", 24);
  }

  /** Letters that "proyecto de universidad urgente" lacks. */
  lemma UrgentProjectLacks(t: string, c: char)
    requires t == "proyecto de universidad urgente"
    requires c == 'b' || c == 'm' || c == 'l' || c == 'f' || c == 'j'
    ensures c !in t
  {
    forall i | 0 <= i < |t| ensures t[i] != c {
      assert t[i] in "proyectdunivsag ";
    }
  }

  /** Seven more tag keywords are absent from "proyecto de universidad
      urgente", each lacking a letter of the text. */
  lemma UrgentProjectMisses(t: string)
    requires 'b' !in t && 'm' !in t && 'l' !in t && 'f' !in t && 'j' !in t
    ensures !Contains(t, "trabajo") && !Contains(t, "compras") && !Contains(t, "salud")
    ensures !Contains(t, "personal") && !Contains(t, "familia")
    ensures !Contains(t, "ejercicio") && !Contains(t, "viaje")
  {
    MissingLetter(t, "trabajo", 3);
    MissingLetter(t, "compras", 2);
    MissingLetter(t, "salud", 2);
    MissingLetter(t, "personal", 7);
    MissingLetter(t, "familia", 0);
    MissingLetter(t, "ejercicio", 1);
    MissingLetter(t, "viaje", 3);
  }

  /** "estudio" does not occur in "proyecto de universidad urgente": no
      "e" there is followed by "s". */
  lemma UrgentProjectNoStudy(t: string)
    requires t == "proyecto de universidad urgente"
    ensures !Contains(t, "estudio")
  {
    forall i | 0 <= i <= |t| - 2 ensures !OccursAt(t, "es", i) {
      assert t[i..i + 2][0] == t[i] && t[i..i + 2][1] == t[i + 1];
    }
    assert !Contains(t, "es");
    ContainsSlice(t, "estudio", 0, 2);
    assert "estudio"[0..2] == "es";
  }

  /** Filtering a ten-element list whose first and seventh elements alone
      pass. */
  lemma FilterFirstAndSeventh<T(!new)>(ks: seq<T>, p: T -> bool)
    requires |ks| == 10 && p(ks[0]) && p(ks[6])
    requires !p(ks[1]) && !p(ks[2]) && !p(ks[3]) && !p(ks[4]) && !p(ks[5])
    requires !p(ks[7]) && !p(ks[8]) && !p(ks[9])
    ensures Filter(ks, p) == [ks[0], ks[6]]
  {
    assert Filter(ks[9..], p) == [];
    assert Filter(ks[8..], p) == [];
    assert Filter(ks[7..], p) == [];
    assert Filter(ks[6..], p) == [ks[6]];
    assert Filter(ks[5..], p) == [ks[6]];
    assert Filter(ks[4..], p) == [ks[6]];
    assert Filter(ks[3..], p) == [ks[6]];
    assert Filter(ks[2..], p) == [ks[6]];
    assert Filter(ks[1..], p) == [ks[6]];
  }

  /** The tag keywords found in "proyecto de universidad urgente". */
  lemma UrgentProjectMatches(t: string)
    requires t == "proyecto de universidad urgente"
    ensures MatchedKeywords(TagKeywords, t) == ["universidad", "proyecto"]
  {
    UrgentProjectHits(t);
    UrgentProjectLacks(t, 'b');
    UrgentProjectLacks(t, 'm');
    UrgentProjectLacks(t, 'l');
    UrgentProjectLacks(t, 'f');
    UrgentProjectLacks(t, 'j');
    UrgentProjectMisses(t);
    UrgentProjectNoStudy(t);
    FilterFirstAndSeventh(TagKeywords, (w: string) => Contains(t, w));
  }

  /** "Proyecto de universidad urgente" is tagged Universidad before
      Proyecto: TAG_KEYWORDS order, not text order. */
  lemma ExampleUniversityBeforeProject()
    ensures TagsFor("Proyecto de universidad urgente") == ["Universidad", "Proyecto"]
  {
    var text := "Proyecto de universidad urgente";
    LowerUrgentProject(text);
    UrgentProjectMatches(Lower(text));
    CapitalizedTwo("universidad", "proyecto");
  }

  /** Suggested tags for two found keywords. */
  lemma CapitalizedTwo(a: string, b: string)
    requires a == "universidad" && b == "proyecto"
    ensures Map([a, b], Capitalize) == ["Universidad", "Proyecto"]
  {
    assert Capitalize(a) == "Universidad";
    assert Capitalize(b) == "Proyecto";
  }

  /** Letters that "comprar leche" lacks. */
  lemma BuyMilkLacks(t: string, c: char)
    requires t == "comprar leche"
    requires c in "ntudibsfyjv"
    ensures c !in t
  {
    forall i | 0 <= i < |t| ensures t[i] != c {
      assert t[i] in "compraleh ";
    }
  }

  /** No "h" of "comprar leche" is followed by "a". */
  lemma BuyMilkNoHa(t: string)
    requires t == "comprar leche"
    ensures !Contains(t, "ha")
  {
    forall i | 0 <= i <= |t| - 2 ensures !OccursAt(t, "ha", i) {
      assert t[i..i + 2][0] == t[i] && t[i..i + 2][1] == t[i + 1];
    }
  }

  /** "comprar leche" has no red and no blue word, and the green word
      "comprar". */
  lemma BuyMilkBuckets(t: string)
    requires forall c :: c in "ntudib" ==> c !in t
    requires !Contains(t, "ha") && OccursAt(t, "comprar", 0)
    ensures !BucketMatches(ColorKeywords[0], t)
    ensures !BucketMatches(ColorKeywords[1], t)
    ensures BucketMatches(ColorKeywords[2], t)
  {
    MissingLetter(t, "entregar", 1);
    MissingLetter(t, "pendiente", 2);
    MissingLetter(t, "tarea", 0);
    MissingLetter(t, "urgente", 0);
    ContainsSlice(t, "hacer", 0, 2);
    assert "hacer"[0..2] == "ha";
    MissingLetter(t, "deadline", 0);
    MissingLetter(t, "importante", 0);
    MissingLetter(t, "idea", 0);
    MissingLetter(t, "recordar", 5);
    MissingLetter(t, "pensar", 2);
    MissingLetter(t, "inspiraci\U{00F3}n", 0);
    MissingLetter(t, "notas", 0);
    MissingLetter(t, "brainstorm", 0);
    MissingLetter(t, "concepto", 2);
    assert Contains(t, ColorKeywords[2].keywords[0]);
  }

  /** "comprar leche" contains no tag keyword ("comprar" is not
      "compras"). */
  lemma BuyMilkNoTags(t: string)
    requires forall c :: c in "tusfyjv" ==> c !in t
    ensures forall k :: 0 <= k < |TagKeywords| ==> !Contains(t, TagKeywords[k])
  {
    MissingLetter(t, "universidad", 0);
    MissingLetter(t, "trabajo", 0);
    MissingLetter(t, "compras", 6);
    MissingLetter(t, "salud", 0);
    MissingLetter(t, "personal", 3);
    MissingLetter(t, "familia", 0);
    MissingLetter(t, "proyecto", 3);
    MissingLetter(t, "estudio", 1);
    MissingLetter(t, "ejercicio", 1);
    MissingLetter(t, "viaje", 0);
  }

  /** "Comprar leche" is green with the single tag "General". */
  lemma ExampleBuyMilk()
    ensures ColorFor("Comprar leche") == Green
    ensures TagsFor("Comprar leche") == [General]
  {
    var t := Lower("Comprar leche");
    assert t == "comprar leche";
    forall c | c in "ntudibsfyjv" ensures c !in t {
      BuyMilkLacks(t, c);
    }
    BuyMilkNoHa(t);
    BuyMilkBuckets(t);
    ColorForByPriority("Comprar leche");
    BuyMilkNoTags(t);
    TagsForGeneralIff("Comprar leche");
  }

  /** A word with a letter that the text lacks is not contained in it. */
  lemma MissingLetter(t: string, w: string, j: nat)
    requires j < |w| && w[j] !in t
    ensures !Contains(t, w)
  {
    ContainsSlice(t, w, j, j + 1);
    ContainsChar(t, w[j]);
    assert w[j..j + 1] == [w[j]];
  }
}
