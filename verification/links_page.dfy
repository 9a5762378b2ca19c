/** The company links board (src/app/dashboard/links/page.js): the two
    filters, the grouping by category, the category lookup with its fallback,
    the new-link form, and the scheme-less URL the cards display. */
module LinksPage {
  import opened Common
  import opened Lists
  import opened Text
  import opened Store
  import LinksApi

  /** One entry of `CATEGORIES` (`caption` is its `label`). */
  datatype CategoryInfo = CategoryInfo(value: string, caption: string, icon: string, color: string)

  const Categories: seq<CategoryInfo> := [
    CategoryInfo("website", "Website", "\U{1F310}", "bg-blue-100 text-blue-700"),
    CategoryInfo("social", "Social Media", "\U{1F4F1}", "bg-pink-100 text-pink-700"),
    CategoryInfo("document", "Document", "\U{1F4C4}", "bg-green-100 text-green-700"),
    CategoryInfo("other", "Other", "\U{1F517}", "bg-slate-100 text-slate-700")
  ]

  /** A link passes when it satisfies both filters; an empty filter passes
      everything. The page's filter keeps exactly the links the GET route
      would select for the same two query values. */
  function Passes(l: Link, filterCompany: string, filterCategory: string): (r: bool)
    ensures filterCompany == "" && filterCategory == "" ==> r
    ensures r <==> LinksApi.Selected(l, Str(filterCompany), Str(filterCategory))
  {
    (filterCompany == "" || l.companyId == filterCompany) && (filterCategory == "" || l.category == filterCategory)
  }

  function PassesFilters(filterCompany: string, filterCategory: string): Link -> bool {
    (l: Link) => Passes(l, filterCompany, filterCategory)
  }

  /** `filteredLinks`: exactly the links passing both filters, each as often
      as before and in the same order. */
  function FilteredLinks(links: seq<Link>, filterCompany: string, filterCategory: string): (r: seq<Link>)
    ensures r == Filter(links, PassesFilters(filterCompany, filterCategory))
    ensures forall l :: multiset(r)[l] == if Passes(l, filterCompany, filterCategory) then multiset(links)[l] else 0
  {
    FilterMultiset(links, PassesFilters(filterCompany, filterCategory));
    Filter(links, PassesFilters(filterCompany, filterCategory))
  }

  /** With both filters empty every link is shown, in its order. */
  lemma NoFilterShowsAll(links: seq<Link>)
    ensures FilteredLinks(links, "", "") == links
  {
    FilterKeepsAll(links, PassesFilters("", ""));
  }

  function InCategory(c: string): Link -> bool {
    (l: Link) => l.category == c
  }

  /** The category values, in the order of `CATEGORIES`. */
  function CategoryValues(): (r: seq<string>)
    ensures |r| == |Categories| && forall k :: 0 <= k < |r| ==> r[k] == Categories[k].value
  {
    ["website", "social", "document", "other"]
  }

  /** `groupedLinks`: the reduce over CATEGORIES that stores, under each
      category value, the filtered links of that category in their order. */
  method GroupLinks(filtered: seq<Link>) returns (groups: map<string, seq<Link>>)
    ensures groups.Keys == set k | 0 <= k < |CategoryValues()| :: CategoryValues()[k]
    ensures forall c :: c in groups ==> groups[c] == Filter(filtered, InCategory(c))
    ensures forall c, l :: c in groups && l in groups[c] ==> l in filtered && l.category == c
  {
    var values := CategoryValues();
    groups := map[];
    for k := 0 to |values|
      invariant groups.Keys == set j | 0 <= j < k :: values[j]
      invariant forall c :: c in groups ==> groups[c] == Filter(filtered, InCategory(c))
    {
      groups := groups[values[k] := Filter(filtered, InCategory(values[k]))];
    }
  }

  /** A link whose category is none of the four is in no group. */
  lemma UnknownCategoryInNoGroup(groups: map<string, seq<Link>>, l: Link)
    requires forall c, x :: c in groups && x in groups[c] ==> x.category == c
    requires l.category !in CategoryValues()
    requires groups.Keys == set k | 0 <= k < |CategoryValues()| :: CategoryValues()[k]
    ensures forall c :: c in groups ==> l !in groups[c]
  {
  }

  /** `getCategoryInfo(category)`: the entry with that value, or "other" when
      no entry has it. */
  function CategoryInfoOf(category: string): (r: CategoryInfo)
    ensures r in Categories
    ensures (exists c :: c in Categories && c.value == category) ==> r.value == category
    ensures (forall c :: c in Categories ==> c.value != category) ==> r == Categories[3]
  {
    Find(Categories, (c: CategoryInfo) => c.value == category).GetOr(Categories[3])
  }

  /** `url.replace(/^https?:\/\//, '')`: one leading "http://" or "https://" is
      removed; nothing else changes. */
  function StripScheme(url: string): (r: string)
    ensures StartsWith(url, "https://") ==> url == "https://" + r
    ensures !StartsWith(url, "https://") && StartsWith(url, "http://") ==> url == "http://" + r
    ensures !StartsWith(url, "https://") && !StartsWith(url, "http://") ==> r == url
  {
    if StartsWith(url, "https://") then url[8..]
    else if StartsWith(url, "http://") then url[7..]
    else url
  }

  /** Only one scheme goes: a doubled prefix keeps its second copy. */
  lemma StripOnce(rest: string)
    ensures StripScheme("https://" + "http://" + rest) == "http://" + rest
  {
    var u := "https://" + "http://" + rest;
    assert u[..8] == "https://";
    assert u[8..] == "http://" + rest;
  }

  /** The link form. */
  datatype LinkForm = LinkForm(companyId: string, title: string, url: string, category: string, notes: string)

  const EmptyForm := LinkForm("", "", "", "other", "")

  /** `openNew`: a cleared form whose company is the first company, if any. */
  function OpenNew(companies: seq<Company>): (r: LinkForm)
    ensures r.title == "" && r.url == "" && r.notes == "" && r.category == "other"
    ensures |companies| > 0 ==> r.companyId == companies[0].id
    ensures |companies| == 0 ==> r.companyId == ""
  {
    if |companies| > 0 then EmptyForm.(companyId := companies[0].id) else EmptyForm
  }
}
