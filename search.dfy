/**
 * The `cpp` command's treatment of a cppreference search page: the result
 * headings, already extracted from the HTML as (href, text) pairs, are sorted
 * into language and library results and laid out with fixed bounds.
 */
module Search {
  import opened Text

  const SiteRoot := "http://en.cppreference.com"
  const CppPrefix := "/w/cpp"
  const LanguagePrefix := "/w/cpp/language"
  const ConceptPrefix := "/w/cpp/concept"

  /** Library results shown next to language results. */
  const GroupedLibraryLimit := 10
  /** Library results shown when there are no language results. */
  const FlatLimit := 15

  /** One search-result heading: the anchor's href and its text. */
  datatype Link = Link(href: string, text: string)

  predicate IsCppPage(href: string) {
    StartsWith(href, CppPrefix)
  }

  /** Pages about the core language or about concepts. */
  predicate IsLanguagePage(href: string) {
    StartsWith(href, LanguagePrefix) || StartsWith(href, ConceptPrefix)
  }

  predicate IsLibraryPage(href: string) {
    IsCppPage(href) && !IsLanguagePage(href)
  }

  function LanguageEntry(link: Link): string {
    "[" + link.text + "](" + SiteRoot + link.href + ")"
  }

  function LibraryEntry(link: Link): string {
    "[`" + link.text + "`](" + SiteRoot + link.href + ")"
  }

  /** The language results of `links`, in order. */
  function LanguageResults(links: seq<Link>): seq<string> {
    if links == [] then []
    else
      var last := links[|links| - 1];
      LanguageResults(links[..|links| - 1]) + (if IsLanguagePage(last.href) then [LanguageEntry(last)] else [])
  }

  /** The library results of `links`, in order. */
  function LibraryResults(links: seq<Link>): seq<string> {
    if links == [] then []
    else
      var last := links[|links| - 1];
      LibraryResults(links[..|links| - 1]) + (if IsLibraryPage(last.href) then [LibraryEntry(last)] else [])
  }

  /** Every language page lies under the C++ prefix, so it is never dropped. */
  lemma LanguagePageIsCppPage(href: string)
    requires IsLanguagePage(href)
    ensures IsCppPage(href)
  {
    if StartsWith(href, LanguagePrefix) {
      assert href[..|CppPrefix|] == href[..|LanguagePrefix|][..|CppPrefix|];
    } else {
      assert href[..|CppPrefix|] == href[..|ConceptPrefix|][..|CppPrefix|];
    }
  }

  /** The loop over the result headings that fills `special_pages` and `description`. */
  method Classify(links: seq<Link>) returns (description: seq<string>, specialPages: seq<string>)
    ensures specialPages == LanguageResults(links)
    ensures description == LibraryResults(links)
  {
    description, specialPages := [], [];
    var i := 0;
    while i < |links|
      invariant 0 <= i <= |links|
      invariant specialPages == LanguageResults(links[..i])
      invariant description == LibraryResults(links[..i])
    {
      var link := links[i];
      assert links[..i + 1][..i] == links[..i];
      if !StartsWith(link.href, CppPrefix) {
        i := i + 1;
        continue;
      }
      if StartsWith(link.href, LanguagePrefix) || StartsWith(link.href, ConceptPrefix) {
        specialPages := specialPages + [LanguageEntry(link)];
      } else {
        description := description + [LibraryEntry(link)];
      }
      i := i + 1;
    }
    assert links[..i] == links;
  }

  /** Sorting is order-preserving: results of a concatenation are the concatenated results. */
  lemma {:induction false} ResultsAppend(a: seq<Link>, b: seq<Link>)
    ensures LanguageResults(a + b) == LanguageResults(a) + LanguageResults(b)
    ensures LibraryResults(a + b) == LibraryResults(a) + LibraryResults(b)
  {
    if b != [] {
      var b' := b[..|b| - 1];
      assert (a + b)[..|a + b| - 1] == a + b';
      assert (a + b)[|a + b| - 1] == b[|b| - 1];
      ResultsAppend(a, b');
    } else {
      assert a + b == a;
    }
  }

  /** An entry is a language result exactly when some language page produced it. */
  lemma {:induction false} LanguageResultsMembers(links: seq<Link>, e: string)
    ensures e in LanguageResults(links) <==>
      exists i :: 0 <= i < |links| && IsLanguagePage(links[i].href) && e == LanguageEntry(links[i])
  {
    if links != [] {
      var init := links[..|links| - 1];
      LanguageResultsMembers(init, e);
      assert forall i :: 0 <= i < |init| ==> init[i] == links[i];
    }
  }

  /** An entry is a library result exactly when some other C++ page produced it. */
  lemma {:induction false} LibraryResultsMembers(links: seq<Link>, e: string)
    ensures e in LibraryResults(links) <==>
      exists i :: 0 <= i < |links| && IsLibraryPage(links[i].href) && e == LibraryEntry(links[i])
  {
    if links != [] {
      var init := links[..|links| - 1];
      LibraryResultsMembers(init, e);
      assert forall i :: 0 <= i < |init| ==> init[i] == links[i];
    }
  }

  /** Both result lists are empty exactly when no heading links to a C++ page. */
  lemma {:induction false} NoCppPages(links: seq<Link>)
    ensures LanguageResults(links) == [] && LibraryResults(links) == [] <==>
      forall i :: 0 <= i < |links| ==> !IsCppPage(links[i].href)
  {
    if links != [] {
      var init := links[..|links| - 1];
      NoCppPages(init);
      assert forall i :: 0 <= i < |init| ==> init[i] == links[i];
      var last := links[|links| - 1].href;
      if IsLanguagePage(last) {
        LanguagePageIsCppPage(last);
      }
    }
  }

  /** What the command posts. */
  datatype SearchView =
    | NoResults
      /** "Language Results", then (when non-empty) "Library Results". */
    | Grouped(language: seq<string>, library: seq<string>)
      /** "Search Results" with the library results as description. */
    | Flat(results: seq<string>)

  function Min(a: int, b: int): int {
    if a < b then a else b
  }

  /** The choice between the two embed layouts and the "No results found." reply. */
  function Layout(specialPages: seq<string>, description: seq<string>): (v: SearchView)
    ensures v == NoResults <==> specialPages == [] && description == []
    ensures v.Grouped? <==> specialPages != []
    ensures v.Grouped? ==>
      v.language == specialPages && v.library <= description
      && |v.library| == Min(|description|, GroupedLibraryLimit)
    ensures v.Flat? ==>
      v.results <= description && |v.results| == Min(|description|, FlatLimit) && 0 < |v.results|
  {
    if |specialPages| > 0 then
      Grouped(specialPages, description[..Min(|description|, GroupedLibraryLimit)])
    else if |description| == 0 then
      NoResults
    else
      Flat(description[..Min(|description|, FlatLimit)])
  }

  /** The `cpp` command after the page has been fetched and its headings extracted. */
  method SearchResults(links: seq<Link>) returns (v: SearchView)
    ensures v == Layout(LanguageResults(links), LibraryResults(links))
    ensures v == NoResults <==> forall i :: 0 <= i < |links| ==> !IsCppPage(links[i].href)
    ensures v.Grouped? ==> |v.library| <= GroupedLibraryLimit
    ensures v.Flat? ==> 0 < |v.results| <= FlatLimit
  {
    var description, specialPages := Classify(links);
    v := Layout(specialPages, description);
    NoCppPages(links);
  }
}
