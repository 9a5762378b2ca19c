/** The notes board (src/app/dashboard/notes/page.js): search, the
    pinned-first ordering, the colour scheme lookup, the pin toggle, the
    pinned count and the local list updates. */
module NotesPage {
  import opened Common
  import opened Lists
  import opened Sorting
  import opened Text
  import opened Store

  /** One entry of `NOTE_COLORS`: a colour name and its CSS classes. */
  datatype ColorScheme = ColorScheme(
    name: string, bg: string, border: string, header: string, text: string, light: string, hover: string)

  const NoteColors: seq<ColorScheme> := [
    ColorScheme("indigo", "bg-indigo-50", "border-indigo-200", "from-indigo-500 to-purple-500", "text-indigo-600", "bg-indigo-100", "hover:border-indigo-300"),
    ColorScheme("rose", "bg-rose-50", "border-rose-200", "from-rose-500 to-pink-500", "text-rose-600", "bg-rose-100", "hover:border-rose-300"),
    ColorScheme("emerald", "bg-emerald-50", "border-emerald-200", "from-emerald-500 to-teal-500", "text-emerald-600", "bg-emerald-100", "hover:border-emerald-300"),
    ColorScheme("amber", "bg-amber-50", "border-amber-200", "from-amber-500 to-orange-500", "text-amber-600", "bg-amber-100", "hover:border-amber-300"),
    ColorScheme("sky", "bg-sky-50", "border-sky-200", "from-sky-500 to-cyan-500", "text-sky-600", "bg-sky-100", "hover:border-sky-300"),
    ColorScheme("violet", "bg-violet-50", "border-violet-200", "from-violet-500 to-purple-500", "text-violet-600", "bg-violet-100", "hover:border-violet-300")
  ]

  /** `getColorClasses(colorName)`: the scheme with that name, or the first
      (indigo) one when no scheme has it (a note without a colour included). */
  function ColorClasses(colorName: Option<string>): (r: ColorScheme)
    ensures r in NoteColors
    ensures (exists c :: c in NoteColors && Some(c.name) == colorName) ==> Some(r.name) == colorName
    ensures (forall c :: c in NoteColors ==> Some(c.name) != colorName) ==> r == NoteColors[0]
  {
    Find(NoteColors, (c: ColorScheme) => Some(c.name) == colorName).GetOr(NoteColors[0])
  }

  /** The search: the lower-cased title or content contains the lower-cased
      term, that is, the term occurs, case-insensitively, at some position of
      one of them; every note matches the empty term. */
  function Matches(n: Note, term: string): (r: bool)
    ensures term == "" ==> r
    ensures r <==> ((exists i :: OccursAt(Lower(n.title), Lower(term), i))
                    || (exists i :: OccursAt(Lower(n.content), Lower(term), i)))
  {
    ContainsEmpty(Lower(n.title));
    ContainsOccurs(Lower(n.title), Lower(term));
    ContainsOccurs(Lower(n.content), Lower(term));
    Contains(Lower(n.title), Lower(term)) || Contains(Lower(n.content), Lower(term))
  }

  /** `note => ...includes(term)`: the search as a filter predicate. */
  function MatchesTerm(term: string): Note -> bool {
    (n: Note) => Matches(n, term)
  }

  /** `filteredNotes`: exactly the matching notes, each as often as before and
      in the same order. */
  function FilteredNotes(notes: seq<Note>, term: string): (r: seq<Note>)
    ensures r == Filter(notes, MatchesTerm(term))
    ensures forall n :: multiset(r)[n] == if Matches(n, term) then multiset(notes)[n] else 0
  {
    FilterMultiset(notes, MatchesTerm(term));
    Filter(notes, MatchesTerm(term))
  }

  /** Every string contains the empty string. */
  lemma ContainsEmpty(s: string)
    ensures Contains(s, "")
  {
    assert StartsWith(s, "");
  }

  /** An empty search term keeps every note. */
  lemma EmptySearchKeepsAll(notes: seq<Note>)
    ensures FilteredNotes(notes, "") == notes
  {
    FilterKeepsAll(notes, MatchesTerm(""));
  }

  /** The comparator of `sortedNotes` read as "may come first": a pinned note
      before an unpinned one, otherwise the newer (or equally old) first. */
  predicate NoteBefore(a: Note, b: Note) {
    (a.isPinned && !b.isPinned) || (a.isPinned == b.isPinned && a.createdAt >= b.createdAt)
  }

  function Before(): (Note, Note) -> bool { NoteBefore }

  /** The comparator is a total preorder, so sorting by it is well defined. */
  lemma BeforeIsPreorder()
    ensures TotalPreorder(Before())
  {
  }

  /** `sortedNotes`: the filtered notes reordered so that pinned notes come first
      and, within the same pin state, newer notes come first. */
  function SortedNotes(filtered: seq<Note>): (r: seq<Note>)
    ensures multiset(r) == multiset(filtered)
    ensures forall i, j :: 0 <= i < j < |r| && !r[i].isPinned ==> !r[j].isPinned
    ensures forall i, j :: 0 <= i < j < |r| && r[i].isPinned == r[j].isPinned ==> r[i].createdAt >= r[j].createdAt
  {
    BeforeIsPreorder();
    SortBySorted(filtered, Before());
    SortBy(filtered, Before())
  }

  /** `handleTogglePin`: the note sent back with only its pin flipped. */
  function TogglePin(n: Note): (r: Note)
    ensures r.isPinned == !n.isPinned
    ensures r.(isPinned := n.isPinned) == n
  {
    n.(isPinned := !n.isPinned)
  }

  lemma TogglePinTwice(n: Note)
    ensures TogglePin(TogglePin(n)) == n
  {
  }

  function IsPinned(n: Note): bool { n.isPinned }
  function NotPinned(n: Note): bool { !n.isPinned }

  /** `pinnedCount`: the number of pinned notes, over all notes (not only the
      ones the search keeps). */
  function PinnedCount(notes: seq<Note>): (r: nat)
    ensures r <= |notes|
    ensures r == |notes| <==> forall n :: n in notes ==> n.isPinned
  {
    FilterSplit(notes, IsPinned, NotPinned);
    FilterEmpty(notes, NotPinned);
    |Filter(notes, IsPinned)|
  }

  /** Toggling the pin of a note (ids unique) moves the pinned count by one.
      The note put back is taken to be the PUT route's echo of the toggled
      note, `TogglePin(n)`; that route is not part of this model. */
  lemma TogglePinMovesCount(notes: seq<Note>, n: Note)
    requires UniqueIds(notes, NoteKey) && n in notes
    ensures PinnedCount(ReplaceById(notes, n.id, TogglePin(n), NoteKey))
         == PinnedCount(notes) + (if n.isPinned then -1 else 1)
  {
    var f := (x: Note) => if x.isPinned then 1 else 0;
    SumReplace(notes, n, TogglePin(n), NoteKey, f);
    PinnedIsSum(notes, f);
    PinnedIsSum(ReplaceById(notes, n.id, TogglePin(n), NoteKey), f);
  }

  lemma {:induction false} PinnedIsSum(notes: seq<Note>, f: Note -> int)
    requires forall x :: f(x) == if x.isPinned then 1 else 0
    ensures PinnedCount(notes) == Sum(notes, f)
  {
    if notes != [] {
      PinnedIsSum(notes[1..], f);
      FilterLengthCons(notes, IsPinned);
    }
  }
}
