/**
 * The standalone programme overview: two fixed lists (skill and behaviour programs) filtered by
 * the selected tab. As written, a program is kept when its lower-cased status equals the
 * lower-cased tab value; the tab values are plurals ("activos", "logrados") while the statuses
 * are singular ("Activo", "Logrado"), so those two tabs always come out empty. The corrected
 * filter maps each tab to the status it names.
 */
module ProgramacionView {
  import opened Wrappers
  import opened Seqs
  import opened Text

  datatype ViewStatus = Activo | Logrado | Pausa

  datatype ViewProgram = ViewProgram(id: string, name: string, status: ViewStatus)

  function StatusText(s: ViewStatus): (t: string)
    ensures t in {"Activo", "Logrado", "Pausa"}
    ensures t == "Activo" <==> s == Activo
    ensures t == "Logrado" <==> s == Logrado
    ensures t == "Pausa" <==> s == Pausa
  {
    match s
    case Activo => "Activo"
    case Logrado => "Logrado"
    case Pausa => "Pausa"
  }

  const SkillFixtures: seq<ViewProgram> := [
    ViewProgram("1", "Contacto Visual", Activo),
    ViewProgram("2", "Imitación Motora", Activo),
    ViewProgram("3", "Seguimiento de Instrucciones Simple", Logrado),
    ViewProgram("4", "Match a la muestra", Pausa),
    ViewProgram("5", "Identificación de Colores", Activo)]

  const BehaviorFixtures: seq<ViewProgram> := [
    ViewProgram("b1", "Agresión", Activo),
    ViewProgram("b2", "Auto-lesión", Activo),
    ViewProgram("b3", "Disrupción", Pausa)]

  /** The tab values, in display order; the view opens on "todos". */
  const Tabs: seq<string> := ["activos", "logrados", "pausa", "todos"]

  /** `onChange(value => setFilter(value || 'todos'))`. */
  function SelectTab(value: Option<string>): (f: string)
    ensures value.Some? && value.value != "" ==> f == value.value
    ensures value.None? || value.value == "" ==> f == "todos"
  {
    if value.Some? && value.value != "" then value.value else "todos"
  }

  // ----- as written -----

  predicate KeptAsWritten(filter: string, p: ViewProgram) {
    filter == "todos" || LowerStr(StatusText(p.status)) == LowerStr(filter)
  }

  /** `list.filter(p => filter === 'todos' || p.status.toLowerCase() === filter.toLowerCase())`. */
  function FilteredAsWritten(list: seq<ViewProgram>, filter: string): (r: seq<ViewProgram>)
    ensures filter == "todos" ==> r == list
    ensures forall p :: p in r <==> p in list && KeptAsWritten(filter, p)
  {
    if filter == "todos" then
      FilterKeepsAll(list, p => KeptAsWritten(filter, p));
      Filter(list, p => KeptAsWritten(filter, p))
    else Filter(list, p => KeptAsWritten(filter, p))
  }

  /** As written, the "activos" and "logrados" tabs show nothing, whatever the programs; "pausa" works. */
  lemma PluralTabsMatchNothing(list: seq<ViewProgram>, p: ViewProgram)
    ensures FilteredAsWritten(list, "activos") == []
    ensures FilteredAsWritten(list, "logrados") == []
    ensures p in list && p.status == Pausa ==> p in FilteredAsWritten(list, "pausa")
  {
    forall q: ViewProgram
      ensures !KeptAsWritten("activos", q) && !KeptAsWritten("logrados", q)
    {
      NeverKeptByPluralTabs(q);
    }
    NothingKept(list, "activos");
    NothingKept(list, "logrados");
    PausaKept(p);
  }

  lemma NeverKeptByPluralTabs(q: ViewProgram)
    ensures !KeptAsWritten("activos", q) && !KeptAsWritten("logrados", q)
  {
    assert |LowerStr("activos")| == 7 && |LowerStr("logrados")| == 8;
    if q.status == Logrado {
      assert LowerStr("Logrado")[0] == 'l';
      assert LowerStr("activos")[0] == 'a';
    }
  }

  lemma PausaKept(p: ViewProgram)
    ensures p.status == Pausa ==> KeptAsWritten("pausa", p)
  {
    assert LowerStr("Pausa") == "pausa";
    assert LowerStr("pausa") == "pausa";
  }

  /** A filter that keeps no program shows nothing. */
  lemma NothingKept(list: seq<ViewProgram>, filter: string)
    ensures (forall q :: !KeptAsWritten(filter, q)) ==> FilteredAsWritten(list, filter) == []
  {
    var r := FilteredAsWritten(list, filter);
    if |r| > 0 {
      assert r[0] in r;
    }
  }

  /** On the fixtures: the "Activos" tab is empty although five programs are active. */
  lemma ActiveTabExample()
    ensures FilteredAsWritten(SkillFixtures, "activos") == [] && FilteredAsWritten(BehaviorFixtures, "activos") == []
    ensures SkillFixtures[0].status == Activo && BehaviorFixtures[0].status == Activo
  {
    PluralTabsMatchNothing(SkillFixtures, SkillFixtures[0]);
    PluralTabsMatchNothing(BehaviorFixtures, BehaviorFixtures[0]);
  }

  // ----- corrected -----

  /** The status each tab names; "todos" names none. */
  function TabStatus(tab: string): (s: Option<ViewStatus>)
    ensures tab == "activos" <==> s == Some(Activo)
    ensures tab == "logrados" <==> s == Some(Logrado)
    ensures tab == "pausa" <==> s == Some(Pausa)
  {
    if tab == "activos" then Some(Activo)
    else if tab == "logrados" then Some(Logrado)
    else if tab == "pausa" then Some(Pausa)
    else None
  }

  predicate Kept(tab: string, p: ViewProgram) {
    tab == "todos" || TabStatus(tab) == Some(p.status)
  }

  /** The filter as the tabs intend it. */
  function Filtered(list: seq<ViewProgram>, tab: string): (r: seq<ViewProgram>)
    ensures tab == "todos" ==> r == list
    ensures forall p :: p in r <==> p in list && Kept(tab, p)
    ensures IsSubsequence(r, list)
  {
    FilterIsSubsequence(list, p => Kept(tab, p));
    if tab == "todos" then
      FilterKeepsAll(list, p => Kept(tab, p));
      Filter(list, p => Kept(tab, p))
    else Filter(list, p => Kept(tab, p))
  }

  /** Every status has its tab, and that tab shows exactly the programs with that status. */
  lemma EachTabShowsItsStatus(list: seq<ViewProgram>, s: ViewStatus)
    ensures exists k :: 0 <= k < 3 && TabStatus(Tabs[k]) == Some(s)
    ensures forall k, p :: 0 <= k < 3 && TabStatus(Tabs[k]) == Some(s) ==>
      (p in Filtered(list, Tabs[k]) <==> p in list && p.status == s)
  {
    match s
    case Activo => assert TabStatus(Tabs[0]) == Some(s);
    case Logrado => assert TabStatus(Tabs[1]) == Some(s);
    case Pausa => assert TabStatus(Tabs[2]) == Some(s);
  }

  /** `getBadgeColor`, with the behaviour table's override: an active behaviour program shows red. */
  function BadgeColor(s: ViewStatus, behavior: bool): (c: string)
    ensures behavior && s == Activo ==> c == "red"
    ensures !(behavior && s == Activo) ==>
      c == (match s case Activo => "blue" case Logrado => "green" case Pausa => "yellow")
  {
    if behavior && s == Activo then "red"
    else match s
      case Activo => "blue"
      case Logrado => "green"
      case Pausa => "yellow"
  }
}
