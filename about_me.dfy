/**
 * The technology list of the "about me" section (`AboutMe` in
 * src/components/Eperience2.tsx): three category buttons, the category last
 * clicked (initially "all"), and the technologies shown for it.
 */
module AboutMe {
  import opened Wrappers
  import opened Sequences
  import opened JsText

  datatype Technology = Technology(
    name: string,
    category: string,
    icon: Option<string>,
    color: Option<string>)

  /** The categories a technology is declared with. */
  predicate IsDeclaredCategory(c: string) {
    c == "frontend" || c == "backend" || c == "devops" || c == "other"
  }

  /** The category value that shows every technology. */
  const AllCategory := "all"

  /** The buttons, in display order; each one selects its own category. */
  const CategoryButtons: seq<string> := [AllCategory, "frontend", "backend"]

  /** The six technologies of the section, in display order. */
  const Technologies: seq<Technology> := [
    Technology("TypeScript", "frontend", Some("\U{1F537}"), Some("#3178C6")),
    Technology("React.js", "frontend", Some("⚛️"), Some("#61DAFB")),
    Technology("JavaScript ES6+", "frontend", Some("\U{1F49B}"), Some("#F7DF1E")),
    Technology("Python", "backend", Some("\U{1F40D}"), Some("#3776AB")),
    Technology("Java", "backend", Some("☕"), Some("#007396")),
    Technology("C#", "backend", Some("\U{1F3AF}"), Some("#239120"))
  ]

  /**
   * `activeCategory` after the buttons with the given positions were clicked
   * in turn: the category of the last button clicked, "all" before any click.
   * It is always one of the buttons' categories.
   */
  function ActiveAfter(clicks: seq<nat>): (active: string)
    requires forall k :: 0 <= k < |clicks| ==> clicks[k] < |CategoryButtons|
    ensures active in CategoryButtons
    ensures clicks == [] ==> active == AllCategory
  {
    if clicks == [] then AllCategory
    else CategoryButtons[clicks[|clicks| - 1]]
  }

  /**
   * `filteredTechnologies`: with "all", every technology in order; with any
   * other category, exactly the technologies of that category, in their
   * original order and multiplicity.
   */
  function FilteredTechnologies(techs: seq<Technology>, active: string): (r: seq<Technology>)
    ensures active == AllCategory ==> r == techs
    ensures IsSubsequence(r, techs)
    ensures active != AllCategory ==>
      forall t :: multiset(r)[t] == if t.category == active then multiset(techs)[t] else 0
    ensures active != AllCategory ==> forall t :: t in r <==> t in techs && t.category == active
  {
    Filter(techs, (t: Technology) => active == AllCategory || t.category == active)
  }

  /** Two different categories other than "all" never show the same technology. */
  lemma CategoriesDisjoint(techs: seq<Technology>, c1: string, c2: string)
    requires c1 != AllCategory && c2 != AllCategory && c1 != c2
    ensures forall t :: !(t in FilteredTechnologies(techs, c1) && t in FilteredTechnologies(techs, c2))
  {
  }

  /**
   * When every technology is front-end or back-end, the "frontend" and
   * "backend" buttons between them show each technology exactly as often as
   * "all" does.
   */
  lemma FrontendBackendPartition(techs: seq<Technology>)
    requires forall k :: 0 <= k < |techs| ==> techs[k].category in {"frontend", "backend"}
    ensures multiset(FilteredTechnologies(techs, "frontend")) + multiset(FilteredTechnologies(techs, "backend"))
         == multiset(FilteredTechnologies(techs, AllCategory))
  {
    var front, back := FilteredTechnologies(techs, "frontend"), FilteredTechnologies(techs, "backend");
    forall t ensures multiset(front)[t] + multiset(back)[t] == multiset(techs)[t] {
      if t.category != "frontend" && t.category != "backend" {
        assert t !in techs;
      }
    }
    assert multiset(front) + multiset(back) == multiset(techs);
  }

  /** The section's technologies are all declared with one of the allowed categories. */
  lemma TechnologiesDeclared()
    ensures forall k :: 0 <= k < |Technologies| ==> IsDeclaredCategory(Technologies[k].category)
    ensures forall k :: 0 <= k < |Technologies| ==> Technologies[k].category in {"frontend", "backend"}
  {
  }

  /**
   * A block of technologies of the active category, next to a block with
   * none of it, filters down to the first block, on either side.
   */
  lemma SelectsMatchingBlock(kept: seq<Technology>, dropped: seq<Technology>, active: string)
    requires active != AllCategory
    requires forall k :: 0 <= k < |kept| ==> kept[k].category == active
    requires forall k :: 0 <= k < |dropped| ==> dropped[k].category != active
    ensures FilteredTechnologies(kept + dropped, active) == kept
    ensures FilteredTechnologies(dropped + kept, active) == kept
  {
    var keep := (t: Technology) => active == AllCategory || t.category == active;
    FilterConcat(kept, dropped, keep);
    FilterConcat(dropped, kept, keep);
  }

  lemma TechnologiesSplit(techs: seq<Technology>)
    requires |techs| == 6
    requires forall k :: 0 <= k < 3 ==> techs[k].category == "frontend"
    requires forall k :: 3 <= k < 6 ==> techs[k].category == "backend"
    ensures FilteredTechnologies(techs, "frontend") == techs[..3]
    ensures FilteredTechnologies(techs, "backend") == techs[3..]
  {
    var front, back := techs[..3], techs[3..];
    assert techs == front + back;
    assert forall k :: 0 <= k < |front| ==> front[k].category == "frontend" && front[k].category != "backend";
    assert forall k :: 0 <= k < |back| ==> back[k].category == "backend" && back[k].category != "frontend";
    SelectsMatchingBlock(front, back, "frontend");
    SelectsMatchingBlock(back, front, "backend");
  }

  /** The "frontend" button shows the first three technologies, "backend" the last three. */
  lemma ButtonCounts()
    ensures FilteredTechnologies(Technologies, "frontend") == Technologies[..3]
    ensures FilteredTechnologies(Technologies, "backend") == Technologies[3..]
  {
    TechnologiesDeclared();
    TechnologiesSplit(Technologies);
  }

  /** Button `i` is highlighted: its category is the active one (`activeCategory === category`). */
  predicate Highlighted(i: nat, clicks: seq<nat>)
    requires forall k :: 0 <= k < |clicks| ==> clicks[k] < |CategoryButtons|
  {
    i < |CategoryButtons| && CategoryButtons[i] == ActiveAfter(clicks)
  }

  /**
   * After any sequence of clicks, the highlighted button is exactly the last
   * one clicked, or the "all" button before any click.
   */
  lemma HighlightedIsLastClicked(clicks: seq<nat>, i: nat)
    requires forall k :: 0 <= k < |clicks| ==> clicks[k] < |CategoryButtons|
    ensures Highlighted(i, clicks) <==> i == if clicks == [] then 0 else clicks[|clicks| - 1]
  {
    var last := if clicks == [] then 0 else clicks[|clicks| - 1];
    assert CategoryButtons[last] == ActiveAfter(clicks);
  }

  /**
   * The button caption `category.charAt(0).toUpperCase() + category.slice(1)`:
   * the category with its first character upper-cased (ASCII only).
   */
  function ButtonLabel(category: string): (caption: string)
    ensures |caption| == |category|
    ensures forall k :: 1 <= k < |caption| ==> caption[k] == category[k]
    ensures |category| > 0 ==> caption[0] == UpperAscii(category[0])
    ensures |category| > 0 && 'a' <= category[0] <= 'z' ==> 'A' <= caption[0] <= 'Z'
    ensures |category| > 0 && !('a' <= category[0] <= 'z') ==> caption == category
  {
    if |category| == 0 then "" else [UpperAscii(category[0])] + category[1..]
  }

  /** Capitalising a caption a second time changes nothing. */
  lemma ButtonLabelIdempotent(category: string)
    ensures ButtonLabel(ButtonLabel(category)) == ButtonLabel(category)
  {
  }

  /** The three captions read "All", "Frontend" and "Backend". */
  lemma ButtonCaptions()
    ensures ButtonLabel(CategoryButtons[0]) == "All"
    ensures ButtonLabel(CategoryButtons[1]) == "Frontend"
    ensures ButtonLabel(CategoryButtons[2]) == "Backend"
  {
  }
}
