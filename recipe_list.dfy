/** The recipe list: which recipes a view shows (archive flag and a
    case-insensitive title search), how the result is cut into pages of five,
    and the page counter stepped by the Previous and Next buttons. */
module RecipeList {
  import opened Recipes

  function Min(a: int, b: int): int { if a < b then a else b }

  function Max(a: int, b: int): int { if a < b then b else a }

  // ---------------------------------------------------------------------
  // Case-insensitive substring search: the lower-cased search text inside the lower-cased title

  /** Lower-cases one character (ASCII letters only). */
  function LowerChar(c: char): char
  {
    if 'A' <= c <= 'Z' then (c as int + 32) as char else c
  }

  function Lower(s: string): (r: string)
    ensures |r| == |s|
  {
    seq(|s|, i requires 0 <= i < |s| => LowerChar(s[i]))
  }

  /** `needle` occurs in `hay` starting at position `i`. */
  predicate OccursAt(hay: string, needle: string, i: nat)
  {
    i + |needle| <= |hay| && hay[i..i + |needle|] == needle
  }

  /** Substring test: a prefix of `hay`, or of some suffix of it, is `needle`. */
  predicate Includes(hay: string, needle: string)
  {
    needle <= hay || (hay != [] && Includes(hay[1..], needle))
  }

  /** The search test applied to one title. */
  predicate TitleMatches(title: string, search: string)
  {
    Includes(Lower(title), Lower(search))
  }

  /** `Includes` is exactly "occurs at some position". */
  lemma {:induction false} IncludesIff(hay: string, needle: string)
    ensures Includes(hay, needle) <==> exists i: nat :: OccursAt(hay, needle, i)
  {
    if needle <= hay {
      assert OccursAt(hay, needle, 0);
    } else if hay == [] {
      forall i: nat ensures !OccursAt(hay, needle, i) {
        assert |needle| > 0;
      }
    } else {
      IncludesIff(hay[1..], needle);
      forall i: nat ensures OccursAt(hay[1..], needle, i) <==> OccursAt(hay, needle, i + 1) {
        if i + |needle| <= |hay[1..]| {
          assert hay[1..][i..i + |needle|] == hay[i + 1..i + 1 + |needle|];
        }
      }
      assert !OccursAt(hay, needle, 0) by {
        if |needle| <= |hay| {
          assert hay[..|needle|] == hay[0..|needle|];
        }
      }
      if exists j: nat :: OccursAt(hay, needle, j) {
        var j: nat :| OccursAt(hay, needle, j);
        assert j != 0;
        assert OccursAt(hay[1..], needle, j - 1);
      }
    }
  }

  /** The empty search text matches every title. */
  lemma EmptySearchMatchesAll(title: string)
    ensures TitleMatches(title, "")
  {
    assert Lower("") == [];
  }

  /** Searching is case-insensitive: two search texts that lower-case alike match alike. */
  lemma SearchIgnoresCase(title: string, s1: string, s2: string)
    requires Lower(s1) == Lower(s2)
    ensures TitleMatches(title, s1) == TitleMatches(title, s2)
  {
  }

  /** Lower-casing twice is lower-casing once. */
  lemma LowerIdempotent(s: string)
    ensures Lower(Lower(s)) == Lower(s)
  {
  }

  /** A search text matches the same titles as its lower-cased form. */
  lemma SearchAsLowered(title: string, s: string)
    ensures TitleMatches(title, s) == TitleMatches(title, Lower(s))
  {
    LowerIdempotent(s);
  }

  lemma LowerTomatoSoup()
    ensures Lower("Tomato Soup") == "tomato soup"
  {
    var t := Lower("Tomato Soup");
    forall i | 0 <= i < 11 ensures t[i] == "tomato soup"[i] {
    }
  }

  /** A title matches a search text found at some position of the lower-cased title. */
  lemma MatchesAt(title: string, search: string, i: nat)
    requires OccursAt(Lower(title), Lower(search), i)
    ensures TitleMatches(title, search)
  {
    IncludesIff(Lower(title), Lower(search));
  }

  /** "Tomato Soup" matches "tomato", "SOUP", "" and "mato soup". */
  lemma TomatoSoupMatches()
    ensures TitleMatches("Tomato Soup", "tomato")
    ensures TitleMatches("Tomato Soup", "SOUP")
    ensures TitleMatches("Tomato Soup", "")
    ensures TitleMatches("Tomato Soup", "mato soup")
  {
    LowerTomatoSoup();
    LowerSearches();
    TomatoSoupSlices();
    MatchesAt("Tomato Soup", "tomato", 0);
    MatchesAt("Tomato Soup", "SOUP", 7);
    EmptySearchMatchesAll("Tomato Soup");
    MatchesAt("Tomato Soup", "mato soup", 2);
  }

  /** The three search texts of the example, lower-cased. */
  lemma LowerSearches()
    ensures Lower("tomato") == "tomato"
    ensures Lower("SOUP") == "soup"
    ensures Lower("mato soup") == "mato soup"
  {
    var a, b, c := Lower("tomato"), Lower("SOUP"), Lower("mato soup");
    forall i | 0 <= i < 6 ensures a[i] == "tomato"[i] {
    }
    forall i | 0 <= i < 4 ensures b[i] == "soup"[i] {
    }
    forall i | 0 <= i < 9 ensures c[i] == "mato soup"[i] {
    }
  }

  /** Where the three lower-cased search texts occur in "tomato soup". */
  lemma TomatoSoupSlices()
    ensures OccursAt("tomato soup", "tomato", 0)
    ensures OccursAt("tomato soup", "soup", 7)
    ensures OccursAt("tomato soup", "mato soup", 2)
  {
    var t := "tomato soup";
    assert t[0..6] == "tomato";
    assert t[7..11] == "soup";
    assert t[2..11] == "mato soup";
  }

  /** "Tomato Soup" does not match "pizza". */
  lemma TomatoSoupRejectsPizza()
    ensures !TitleMatches("Tomato Soup", "pizza")
  {
    var t := "tomato soup";
    LowerTomatoSoup();
    assert Lower("pizza") == "pizza";
    IncludesIff(t, "pizza");
    forall i: nat ensures !OccursAt(t, "pizza", i) {
      if i + 5 <= |t| {
        assert t[i..i + 5][0] == t[i];
      }
    }
  }

  // ---------------------------------------------------------------------
  // Filter: the recipes with the view's archive flag whose title matches the search

  /** The recipe is listed in the view with this archive flag and search text. */
  predicate Shown(r: Recipe, isArchivedView: bool, search: string)
  {
    r.isArchived == isArchivedView && TitleMatches(r.title, search)
  }

  function Filtered(rs: seq<Recipe>, isArchivedView: bool, search: string): (fs: seq<Recipe>)
    ensures |fs| <= |rs|
    ensures forall r :: r in fs <==> r in rs && Shown(r, isArchivedView, search)
  {
    if rs == [] then []
    else (if Shown(rs[0], isArchivedView, search) then [rs[0]] else [])
         + Filtered(rs[1..], isArchivedView, search)
  }

  /** The filter distributes over concatenation, so it keeps store order. */
  lemma {:induction false} FilteredAppend(a: seq<Recipe>, b: seq<Recipe>, isArchivedView: bool, search: string)
    ensures Filtered(a + b, isArchivedView, search)
         == Filtered(a, isArchivedView, search) + Filtered(b, isArchivedView, search)
  {
    if a == [] {
      assert a + b == b;
    } else {
      assert (a + b)[1..] == a[1..] + b;
      FilteredAppend(a[1..], b, isArchivedView, search);
    }
  }

  /** With the same search text no recipe is listed in both the active and the archive view. */
  lemma ViewsDisjoint(rs: seq<Recipe>, search: string)
    ensures multiset(Filtered(rs, false, search)) !! multiset(Filtered(rs, true, search))
  {
    var a, b := Filtered(rs, false, search), Filtered(rs, true, search);
    forall r | r in multiset(a) ensures r !in multiset(b) {
      assert r in a;
    }
  }

  /** With an empty search the two views together list every recipe exactly once. */
  lemma {:induction false} ViewsPartition(rs: seq<Recipe>)
    ensures multiset(Filtered(rs, false, "")) + multiset(Filtered(rs, true, "")) == multiset(rs)
  {
    if rs != [] {
      ViewsPartition(rs[1..]);
      EmptySearchMatchesAll(rs[0].title);
      assert rs == [rs[0]] + rs[1..];
    }
  }

  /** Filtering a recipe followed by more: the recipe counts, and is listed, exactly when shown. */
  lemma FilteredCons(r: Recipe, rs: seq<Recipe>, isArchivedView: bool, search: string)
    ensures |Filtered([r] + rs, isArchivedView, search)|
         == (if Shown(r, isArchivedView, search) then 1 else 0) + |Filtered(rs, isArchivedView, search)|
    ensures Shown(r, isArchivedView, search) ==> r in Filtered([r] + rs, isArchivedView, search)
  {
    assert ([r] + rs)[0] == r && ([r] + rs)[1..] == rs;
  }

  /** Archiving an active recipe moves it from the active view into the archive view. */
  lemma {:induction false} ArchiveMovesBetweenViews(rs: seq<Recipe>, i: nat, search: string)
    requires UniqueIds(rs) && i < |rs|
    requires !rs[i].isArchived && TitleMatches(rs[i].title, search)
    ensures |Filtered(WithArchived(rs, rs[i].id, true), false, search)| == |Filtered(rs, false, search)| - 1
    ensures |Filtered(WithArchived(rs, rs[i].id, true), true, search)| == |Filtered(rs, true, search)| + 1
    ensures rs[i].(isArchived := true) in Filtered(WithArchived(rs, rs[i].id, true), true, search)
  {
    var id := rs[i].id;
    var h := if rs[0].id == id then rs[0].(isArchived := true) else rs[0];
    var rest := WithArchived(rs[1..], id, true);
    assert WithArchived(rs, id, true) == [h] + rest;
    assert rs == [rs[0]] + rs[1..];
    FilteredCons(h, rest, false, search);
    FilteredCons(h, rest, true, search);
    FilteredCons(rs[0], rs[1..], false, search);
    FilteredCons(rs[0], rs[1..], true, search);
    UniqueIdsTail(rs);
    if i == 0 {
      WithArchivedAbsent(rs[1..], id, true);
    } else {
      assert rs[1..][i - 1] == rs[i];
      ArchiveMovesBetweenViews(rs[1..], i - 1, search);
    }
  }

  // ---------------------------------------------------------------------
  // Pagination: the ceiling of the count over five, and the five-item window of a page

  const PageSize: nat := 5

  /** Number of pages: the least count of five-item pages that holds `n` items. */
  function TotalPages(n: nat): (t: nat)
    ensures PageSize * t - PageSize < n <= PageSize * t
    ensures t == 0 <==> n == 0
  {
    (n + PageSize - 1) / PageSize
  }

  /** Where a JavaScript slice bound lands: negative bounds count from the end. */
  function SliceBound(k: int, len: nat): (b: nat)
    ensures b <= len
    ensures 0 <= k <= len ==> b == k
    ensures k > len ==> b == len
    ensures k < 0 ==> b == Max(len + k, 0)
  {
    if k < 0 then (if len + k < 0 then 0 else len + k)
    else if k > len then len
    else k
  }

  /** The items of `s` from `start` up to `end`, with JavaScript's slice rules. */
  function Slice<T>(s: seq<T>, start: int, end: int): (r: seq<T>)
    ensures |r| <= |s|
    ensures 0 <= start <= end ==> |r| <= end - start
    ensures 0 <= start && 0 <= end ==> r == s[Min(start, |s|)..Max(Min(start, |s|), Min(end, |s|))]
  {
    var lo, hi := SliceBound(start, |s|), SliceBound(end, |s|);
    if lo < hi then s[lo..hi] else []
  }

  /** The recipes shown on page `page` of the filtered list `fs`. */
  function PageOf(fs: seq<Recipe>, page: int): (p: seq<Recipe>)
    ensures |p| <= PageSize
    ensures forall r :: r in p ==> r in fs
    ensures page >= 1 ==> p == fs[Min((page - 1) * PageSize, |fs|)..Min(page * PageSize, |fs|)]
    ensures page >= 1 ==> (p == [] <==> page > TotalPages(|fs|))
    ensures 1 <= page < TotalPages(|fs|) ==> |p| == PageSize
  {
    Slice(fs, (page - 1) * PageSize, page * PageSize)
  }

  /** Pages 1 to `k` of `fs`, one after the other. */
  function PagesUpTo(fs: seq<Recipe>, k: nat): seq<Recipe>
  {
    if k == 0 then [] else PagesUpTo(fs, k - 1) + PageOf(fs, k)
  }

  /** The first `k` pages are the first `k * 5` items (or all of them). */
  lemma {:induction false} PagesUpToPrefix(fs: seq<Recipe>, k: nat)
    ensures PagesUpTo(fs, k) == fs[..Min(k * PageSize, |fs|)]
  {
    if k > 0 {
      PagesUpToPrefix(fs, k - 1);
      var a, b := Min((k - 1) * PageSize, |fs|), Min(k * PageSize, |fs|);
      assert fs[..a] + fs[a..b] == fs[..b];
    }
  }

  /** Concatenating pages 1 to `TotalPages` gives back the filtered list exactly. */
  lemma AllPagesReassemble(fs: seq<Recipe>)
    ensures PagesUpTo(fs, TotalPages(|fs|)) == fs
  {
    PagesUpToPrefix(fs, TotalPages(|fs|));
    assert fs[..|fs|] == fs;
  }

  /** Seven matches make two pages: five items, then the remaining two. */
  lemma SevenMatchesExample(fs: seq<Recipe>)
    requires |fs| == 7
    ensures TotalPages(|fs|) == 2
    ensures PageOf(fs, 1) == fs[..5] && PageOf(fs, 2) == fs[5..] && |PageOf(fs, 2)| == 2
  {
  }

  // ---------------------------------------------------------------------
  // Pager: the Previous and Next buttons and the `page` counter

  datatype Button = Previous | Next

  /** The controls are rendered only when there is more than one page. */
  predicate ShowsPager(totalPages: nat)
  {
    totalPages > 1
  }

  /** Previous is clickable: rendered and not on page 1. */
  predicate PreviousEnabled(page: int, totalPages: nat)
  {
    ShowsPager(totalPages) && page != 1
  }

  /** Next is clickable: rendered and not on page `totalPages`. */
  predicate NextEnabled(page: int, totalPages: nat)
  {
    ShowsPager(totalPages) && page != totalPages
  }

  /** The page after a click; a click on a disabled or hidden button changes nothing. */
  function Press(page: int, totalPages: nat, button: Button): (next: int)
    ensures !ShowsPager(totalPages) ==> next == page
    ensures page >= 1 ==> next >= 1
    ensures 1 <= page <= totalPages ==> 1 <= next <= totalPages
    ensures next == page || next == page - 1 || next == page + 1
    ensures next < page <==> button == Previous && PreviousEnabled(page, totalPages)
    ensures next > page <==> button == Next && NextEnabled(page, totalPages)
  {
    match button
    case Previous => if PreviousEnabled(page, totalPages) then page - 1 else page
    case Next => if NextEnabled(page, totalPages) then page + 1 else page
  }

  /** The page after a series of clicks while the page count stays the same. */
  function PressAll(page: int, totalPages: nat, buttons: seq<Button>): int
    decreases buttons
  {
    if buttons == [] then page else PressAll(Press(page, totalPages, buttons[0]), totalPages, buttons[1..])
  }

  /** Starting inside the page range, any series of clicks keeps the page inside it. */
  lemma {:induction false} PressesStayInRange(page: int, totalPages: nat, buttons: seq<Button>)
    requires 1 <= page <= Max(totalPages, 1)
    ensures 1 <= PressAll(page, totalPages, buttons) <= Max(totalPages, 1)
    decreases buttons
  {
    if buttons != [] {
      PressesStayInRange(Press(page, totalPages, buttons[0]), totalPages, buttons[1..]);
    }
  }

  /** The page is not clamped: while two or more pages remain, past the last page both
      buttons stay enabled and the page is empty. */
  lemma PastLastPage(fs: seq<Recipe>, page: int)
    requires ShowsPager(TotalPages(|fs|)) && page > TotalPages(|fs|)
    ensures PageOf(fs, page) == []
    ensures NextEnabled(page, TotalPages(|fs|)) && Press(page, TotalPages(|fs|), Next) == page + 1
    ensures PreviousEnabled(page, TotalPages(|fs|))
  {
  }

  /** With one page or none, a page past the last is empty and no click moves it:
      the view stays on "No recipes found." with no controls. */
  lemma {:induction false} StuckPastLastPage(fs: seq<Recipe>, page: int, buttons: seq<Button>)
    requires !ShowsPager(TotalPages(|fs|)) && page > TotalPages(|fs|)
    ensures PageOf(fs, page) == []
    ensures PressAll(page, TotalPages(|fs|), buttons) == page
    decreases buttons
  {
    if buttons != [] {
      StuckPastLastPage(fs, page, buttons[1..]);
    }
  }

  // ---------------------------------------------------------------------
  // The list component's own state

  /** One list view: its archive flag, its search box and its page counter. */
  class RecipeListView {
    const isArchivedView: bool
    var search: string
    var page: int

    /** The page counter never drops below 1. */
    ghost predicate Valid()
      reads this
    {
      page >= 1
    }

    /** A new view; without an argument it is the active view. */
    constructor (isArchivedView: bool := false)
      ensures Valid()
      ensures this.isArchivedView == isArchivedView && search == "" && page == 1
    {
      this.isArchivedView := isArchivedView;
      search := "";
      page := 1;
    }

    /** The recipes of `recipes` this view lists, before paging. */
    function Matching(recipes: seq<Recipe>): (fs: seq<Recipe>)
      reads this
    {
      Filtered(recipes, isArchivedView, search)
    }

    /** Typing in the search box; the page counter is left where it was. */
    method SetSearch(text: string)
      requires Valid()
      modifies this
      ensures Valid()
      ensures search == text && page == old(page)
    {
      search := text;
    }

    method PressPrevious(recipes: seq<Recipe>)
      requires Valid()
      modifies this
      ensures Valid() && search == old(search)
      ensures page == if PreviousEnabled(old(page), TotalPages(|Matching(recipes)|)) then old(page) - 1 else old(page)
    {
      page := Press(page, TotalPages(|Matching(recipes)|), Previous);
    }

    method PressNext(recipes: seq<Recipe>)
      requires Valid()
      modifies this
      ensures Valid() && search == old(search)
      ensures page == if NextEnabled(old(page), TotalPages(|Matching(recipes)|)) then old(page) + 1 else old(page)
    {
      page := Press(page, TotalPages(|Matching(recipes)|), Next);
    }

    /** What the view renders for the store's current collection. */
    method Render(recipes: seq<Recipe>) returns (items: seq<Recipe>, totalPages: nat, noneFound: bool, showsPager: bool)
      requires Valid()
      ensures totalPages == TotalPages(|Matching(recipes)|)
      ensures items == PageOf(Matching(recipes), page)
      ensures |items| <= PageSize
      ensures forall r :: r in items ==> r in recipes && Shown(r, isArchivedView, search)
      ensures noneFound <==> page > totalPages
      ensures showsPager <==> totalPages > 1
    {
      var fs := Filtered(recipes, isArchivedView, search);
      totalPages := TotalPages(|fs|);
      items := PageOf(fs, page);
      noneFound := |items| == 0;
      showsPager := totalPages > 1;
    }
  }
}
