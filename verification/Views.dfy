/** Storage seen through the marks laid over it, and loading a state back from
    it. */
module Views {
  import opened Options
  import opened ByteOrder
  import opened Utf8
  import opened Key
  import opened Document
  import opened Store
  import opened Maintain

  const FORMAT_VERSION := 1

  /** Which engine's rows each collection holds: its indexes all cover it. */
  type Assignment = Ident -> Engine

  /** Stored cells with pending marks over them. */
  datatype View = View(cells: Cells, marks: map<Bytes, Dirty>) {
    function At(key: Bytes): Option<Cell> {
      Visible(cells, marks, key)
    }
  }

  /** The collection an index key belongs to. */
  function CollectionOf(key: Bytes): Option<Ident> {
    match RefOf(key)
    case Some(ref) => Some(ref.0)
    case None =>
      match ParseDef(key)
      case Some((collection, _)) => Some(collection)
      case None => None
  }

  /** The cell of the definition an entry belongs to. */
  function OwnerKey(p: ParsedEntry): Bytes {
    DefKey(p.collection, p.index)
  }

  /** Every cell sits under the key made for it. */
  ghost predicate KeyedOn(v: View, assign: Assignment, key: Bytes) {
    match v.At(key)
    case None => true
    case Some(EntryCell) => ParseEntry(key).Some?
    case Some(DefCell(def)) => key == def.Key() && def.engine == assign(def.collection)
    case Some(FormatCell(_)) => key == FormatKey()
  }

  ghost predicate OneName(v: View, a: IndexDef, b: IndexDef) {
    v.At(a.Key()) == Some(DefCell(a)) && v.At(b.Key()) == Some(DefCell(b)) && a.name == b.name ==> a == b
  }

  /** An entry is visible exactly when the visible definition of its index holds
      it for the rows. */
  ghost predicate FaithfulOn(env: Env, v: View, rows: Rows, key: Bytes) {
    match ParseEntry(key)
    case None => true
    case Some(p) => v.At(key) == Some(EntryCell) <==> ImpliedBy(env, v.At(OwnerKey(p)), rows, p)
  }

  /** What a view shows is well keyed, names each index once, and holds exactly
      the entries its definitions imply for `rows`. */
  ghost predicate Sound(env: Env, assign: Assignment, v: View, rows: Rows) {
    && (forall k :: KeyedOn(v, assign, k))
    && (forall a, b :: OneName(v, a, b))
    && (forall k :: FaithfulOn(env, v, rows, k))
  }

  // ── Loading ───────────────────────────────────────────────────────────────

  function LoadDefs(cells: Cells, keys: seq<Bytes>): map<Ident, IndexDef> {
    if keys == [] then map[]
    else
      var defs := LoadDefs(cells, keys[..|keys| - 1]);
      match Seen(cells, keys[|keys| - 1])
      case Some(DefCell(def)) => defs[def.name := def]
      case _ => defs
  }

  function LoadEntry(s: State, current: bool, k: Bytes): State {
    match RefOf(k)
    case Some(ref) =>
      if current then s.(postings := s.postings[ref := Held(s, ref) + {k}], entries := s.entries + {k})
      else Mark(s, k, None)
    case None => Mark(s, k, None)
  }

  function LoadEntries(s: State, current: bool, keys: seq<Bytes>): State {
    if keys == [] then s else LoadEntry(LoadEntries(s, current, keys[..|keys| - 1]), current, keys[|keys| - 1])
  }

  predicate IsCurrent(cells: Cells) {
    Seen(cells, FormatKey()) == Some(FormatCell(FORMAT_VERSION))
  }

  /** The state loading stored cells gives. */
  function Loaded(cells: Cells): State {
    var defKeys := PrefixScan(cells.Keys, DefsPrefix());
    var entryKeys := PrefixScan(cells.Keys, EntriesPrefix());
    var s := LoadEntries(EMPTY.(defs := LoadDefs(cells, defKeys)), IsCurrent(cells), entryKeys);
    if !IsCurrent(cells) && !(defKeys == [] && entryKeys == [])
    then Mark(s, FormatKey(), Some(FormatCell(FORMAT_VERSION)))
    else s
  }

  /** Storage after loading: a store holding nothing records the format now. */
  function Stamped(cells: Cells): Cells {
    if !IsCurrent(cells) && PrefixScan(cells.Keys, DefsPrefix()) == [] && PrefixScan(cells.Keys, EntriesPrefix()) == []
    then cells[FormatKey() := FormatCell(FORMAT_VERSION)]
    else cells
  }

  lemma {:induction false} LoadDefsFinds(cells: Cells, keys: seq<Bytes>, name: Ident)
    ensures name in LoadDefs(cells, keys)
       <==> exists k :: k in keys && Seen(cells, k).Some? && Seen(cells, k).value.DefCell? && Seen(cells, k).value.def.name == name
    ensures name in LoadDefs(cells, keys) ==> LoadDefs(cells, keys)[name].name == name
    ensures name in LoadDefs(cells, keys) ==> exists k :: k in keys && Seen(cells, k) == Some(DefCell(LoadDefs(cells, keys)[name]))
    decreases |keys|
  {
    if keys != [] {
      var init, last := keys[..|keys| - 1], keys[|keys| - 1];
      LoadDefsFinds(cells, init, name);
      assert forall k :: k in keys <==> k in init || k == last;
    }
  }

  predicate DefNamed(cells: Cells, k: Bytes, name: Ident) {
    Seen(cells, k).Some? && Seen(cells, k).value.DefCell? && Seen(cells, k).value.def.name == name
  }

  /** Of several stored definitions of one name the last in key order is loaded. */
  lemma {:induction false} LoadDefsKeepsLast(cells: Cells, keys: seq<Bytes>, name: Ident, i: nat)
    requires i < |keys| && DefNamed(cells, keys[i], name) && forall j :: i < j < |keys| ==> !DefNamed(cells, keys[j], name)
    ensures name in LoadDefs(cells, keys) && LoadDefs(cells, keys)[name] == Seen(cells, keys[i]).value.def
    decreases |keys|
  {
    if i < |keys| - 1 {
      LoadDefsKeepsLast(cells, keys[..|keys| - 1], name, i);
      assert !DefNamed(cells, keys[|keys| - 1], name);
    }
  }

  lemma {:induction false} LoadEntriesSort(s: State, current: bool, keys: seq<Bytes>, k: Bytes)
    requires s.sink.None?
    ensures var t, good := LoadEntries(s, current, keys), current && RefOf(k).Some?;
      && t == s.(dirty := t.dirty, nextSeq := t.nextSeq, entries := t.entries, postings := t.postings)
      && (k in t.entries <==> k in s.entries || (k in keys && good))
      && (k in t.dirty <==> k in s.dirty || (k in keys && !good))
      && (k in keys && !good ==> t.dirty[k].cell == None)
    decreases |keys|
  {
    hide RefOf;
    if keys != [] {
      var init, last := keys[..|keys| - 1], keys[|keys| - 1];
      assert forall x :: x in keys <==> x in init || x == last;
      LoadEntriesSort(s, current, init, k);
    }
  }

  /** Whatever is stored: entries of the current format that can be read are
      taken in, every other key among the entries is marked for removal, and the
      format is marked where another is found with anything stored under it. */
  lemma LoadedSorts(cells: Cells, k: Bytes)
    ensures var s, stored, good := Loaded(cells), k in cells && StartsWith(k, EntriesPrefix()), IsCurrent(cells) && RefOf(k).Some?;
      && (k in s.entries <==> stored && good)
      && (k != FormatKey() ==> (k in s.dirty <==> stored && !good))
      && (k != FormatKey() && k in s.dirty ==> s.dirty[k].cell == None)
    ensures var s := Loaded(cells);
      && (FormatKey() in s.dirty <==>
            (!IsCurrent(cells) && exists x :: x in cells && (StartsWith(x, EntriesPrefix()) || StartsWith(x, DefsPrefix()))))
      && (FormatKey() in s.dirty ==> s.dirty[FormatKey()].cell == Some(FormatCell(FORMAT_VERSION)))
  {
    hide LoadEntries;
    hide LoadDefs;
    hide RefOf;
    var defKeys, entryKeys := PrefixScan(cells.Keys, DefsPrefix()), PrefixScan(cells.Keys, EntriesPrefix());
    PrefixScanExact(cells.Keys, DefsPrefix());
    PrefixScanExact(cells.Keys, EntriesPrefix());
    hide PrefixScan;
    FormatKeyIsOutside();
    hide StartsWith;
    assert forall x :: x in entryKeys <==> x in cells && StartsWith(x, EntriesPrefix());
    assert forall x :: x in defKeys <==> x in cells && StartsWith(x, DefsPrefix());
    LoadEntriesSort(EMPTY.(defs := LoadDefs(cells, defKeys)), IsCurrent(cells), entryKeys, k);
    LoadEntriesSort(EMPTY.(defs := LoadDefs(cells, defKeys)), IsCurrent(cells), entryKeys, FormatKey());
    if defKeys != [] { assert defKeys[0] in defKeys; }
    if entryKeys != [] { assert entryKeys[0] in entryKeys; }
  }

  lemma FormatKeyIsOutside()
    ensures !StartsWith(FormatKey(), EntriesPrefix()) && !StartsWith(FormatKey(), DefsPrefix())
  {
    assert EntriesPrefix()[4] == ENTRY && DefsPrefix()[4] == DEF && FormatKey()[4] == FORMAT;
  }

  lemma {:induction false} LoadEntriesExact(s: State, keys: seq<Bytes>)
    requires TwoViews(s) && AllParse(keys)
    ensures TwoViews(LoadEntries(s, true, keys))
    ensures LoadEntries(s, true, keys) == s.(entries := s.entries + Members(keys), postings := LoadEntries(s, true, keys).postings)
    decreases |keys|
  {
    hide RefOf;
    hide TwoViews;
    if keys != [] {
      var init, last := keys[..|keys| - 1], keys[|keys| - 1];
      assert forall k :: k in keys <==> k in init || k == last;
      LoadEntriesExact(s, init);
      PutKeepsViews(LoadEntries(s, true, init), RefOf(last).value, last);
    }
  }

  function Bare(cells: Cells): View {
    View(cells, map[])
  }

  lemma EntryKeyIsUnder(k: Bytes)
    requires ParseEntry(k).Some?
    ensures StartsWith(k, EntriesPrefix())
  {
  }

  lemma ScannedEntries(assign: Assignment, cells: Cells, k: Bytes)
    requires KeyedOn(Bare(cells), assign, k)
    ensures k in PrefixScan(cells.Keys, EntriesPrefix()) <==> Seen(cells, k) == Some(EntryCell)
    ensures k in PrefixScan(cells.Keys, EntriesPrefix()) ==> RefOf(k).Some?
  {
    PrefixScanExact(cells.Keys, EntriesPrefix());
    if ParseEntry(k).Some? { EntryKeyIsUnder(k); }
    assert EntriesPrefix()[4] == ENTRY && DefsPrefix()[4] == DEF && FormatKey()[4] == FORMAT;
    if k in cells && cells[k].DefCell? { assert k[4] == DEF; }
  }

  lemma ScannedDefs(assign: Assignment, cells: Cells, k: Bytes)
    requires KeyedOn(Bare(cells), assign, k)
    ensures k in PrefixScan(cells.Keys, DefsPrefix()) <==> Seen(cells, k).Some? && Seen(cells, k).value.DefCell?
  {
    PrefixScanExact(cells.Keys, DefsPrefix());
    assert EntriesPrefix()[4] == ENTRY && DefsPrefix()[4] == DEF && FormatKey()[4] == FORMAT;
    if k in cells && cells[k].EntryCell? {
      EntryKeyIsUnder(k);
      assert k[4] == ENTRY;
    }
    if k in cells && cells[k].DefCell? { assert DefsPrefix() <= k; }
  }

  lemma ToldOwner(s: State, p: ParsedEntry)
    requires TwoViews(s)
    ensures Told(s, OwnerKey(p)) == ToldDef(s.defs, Some((p.collection, p.index)))
    ensures OwnerKey(p) != FormatKey() && RefOf(OwnerKey(p)) == None
  {
    DefParses(p.collection, p.index);
    KindsAreDisjoint(OwnerKey(p));
  }

  /** A mirrored state agrees with the rows exactly where its view is faithful. */
  lemma FaithfulIffAgrees(env: Env, cells: Cells, s: State, rows: Rows, k: Bytes)
    requires TwoViews(s) && Mirrors(cells, s) && s.sink.None?
    ensures FaithfulOn(env, View(cells, s.dirty), rows, k) <==> AgreesOn(env, s, rows, k)
  {
    if ParseEntry(k).Some? {
      var p := ParseEntry(k).value;
      KindsAreDisjoint(k);
      ToldOwner(s, p);
      hide ParseEntry;
      hide ImpliedBy;
      hide TwoViews;
      assert Shown(cells, s, k) == Told(s, k);
      assert Shown(cells, s, OwnerKey(p)) == Told(s, OwnerKey(p));
    }
  }

  // ── A loaded state ────────────────────────────────────────────────────────

  lemma LoadedIsTidy(assign: Assignment, cells: Cells)
    requires IsCurrent(cells) && forall k :: KeyedOn(Bare(cells), assign, k)
    ensures var s := Loaded(cells);
      && TwoViews(s)
      && s.defs == LoadDefs(cells, PrefixScan(cells.Keys, DefsPrefix()))
      && s.entries == Members(PrefixScan(cells.Keys, EntriesPrefix()))
      && s == EMPTY.(defs := s.defs, entries := s.entries, postings := s.postings)
  {
    hide PrefixScan;
    hide RefOf;
    hide KeyedOn;
    var defs := LoadDefs(cells, PrefixScan(cells.Keys, DefsPrefix()));
    forall n | n in defs ensures defs[n].name == n {
      LoadDefsFinds(cells, PrefixScan(cells.Keys, DefsPrefix()), n);
    }
    forall k | k in PrefixScan(cells.Keys, EntriesPrefix()) ensures RefOf(k).Some? {
      ScannedEntries(assign, cells, k);
    }
    LoadEntriesExact(EMPTY.(defs := defs), PrefixScan(cells.Keys, EntriesPrefix()));
  }

  /** Every stored definition sits under its own key. */
  ghost predicate DefsKeyed(cells: Cells) {
    forall k :: k in cells && StartsWith(k, DefsPrefix()) && cells[k].DefCell? ==> k == cells[k].def.Key()
  }

  lemma KeyedDefs(assign: Assignment, cells: Cells)
    requires forall x :: KeyedOn(Bare(cells), assign, x)
    ensures DefsKeyed(cells)
  {
    forall k | k in cells && cells[k].DefCell? ensures k == cells[k].def.Key() {
      assert KeyedOn(Bare(cells), assign, k);
    }
  }

  /** Definitions load under their names, each from its own key. */
  lemma LoadedDefs(cells: Cells, name: Ident)
    requires DefsKeyed(cells)
    ensures var defs := LoadDefs(cells, PrefixScan(cells.Keys, DefsPrefix()));
      name in defs ==> Seen(cells, defs[name].Key()) == Some(DefCell(defs[name]))
  {
    var keys := PrefixScan(cells.Keys, DefsPrefix());
    PrefixScanExact(cells.Keys, DefsPrefix());
    hide PrefixScan;
    LoadDefsFinds(cells, keys, name);
    if name in LoadDefs(cells, keys) {
      var x :| x in keys && Seen(cells, x) == Some(DefCell(LoadDefs(cells, keys)[name]));
      assert x in cells && StartsWith(x, DefsPrefix());
    }
  }

  lemma LoadedDefTold(cells: Cells, k: Bytes)
    requires DefsKeyed(cells) && forall a, b :: OneName(Bare(cells), a, b)
    requires k in cells ==> cells[k].DefCell? && StartsWith(k, DefsPrefix())
    ensures Seen(cells, k) == ToldDef(LoadDefs(cells, PrefixScan(cells.Keys, DefsPrefix())), ParseDef(k))
  {
    var keys := PrefixScan(cells.Keys, DefsPrefix());
    PrefixScanExact(cells.Keys, DefsPrefix());
    hide PrefixScan;
    if Seen(cells, k).Some? {
      var def := cells[k].def;
      DefParses(def.collection, def.name);
      LoadDefsFinds(cells, keys, def.name);
      LoadedDefs(cells, def.name);
      assert OneName(Bare(cells), def, LoadDefs(cells, keys)[def.name]);
    } else if ParseDef(k).Some? {
      ParsedDefRebuilds(k);
      hide ParseDef;
      LoadedDefs(cells, ParseDef(k).value.1);
      LoadDefsFinds(cells, keys, ParseDef(k).value.1);
    }
  }

  lemma LoadedTells(assign: Assignment, cells: Cells, k: Bytes)
    requires IsCurrent(cells) && k != FormatKey()
    requires forall x :: KeyedOn(Bare(cells), assign, x)
    requires forall a, b :: OneName(Bare(cells), a, b)
    ensures Seen(cells, k) == Told(Loaded(cells), k)
  {
    hide ParseDef;
    LoadedIsTidy(assign, cells);
    hide Loaded;
    hide PrefixScan;
    assert KeyedOn(Bare(cells), assign, k);
    ScannedEntries(assign, cells, k);
    if Seen(cells, k) != Some(EntryCell) {
      KeyedDefs(assign, cells);
      ScannedDefs(assign, cells, k);
      PrefixScanExact(cells.Keys, DefsPrefix());
      LoadedDefTold(cells, k);
    }
  }

  /** Loading a store of the current format, its keys in order, gives the entries
      and the definitions it holds. */
  lemma LoadedShows(assign: Assignment, cells: Cells, d: IndexDef, k: Bytes)
    requires IsCurrent(cells) && (forall x :: KeyedOn(Bare(cells), assign, x)) && forall a, b :: OneName(Bare(cells), a, b)
    ensures k in Loaded(cells).entries <==> Seen(cells, k) == Some(EntryCell)
    ensures Seen(cells, d.Key()) == Some(DefCell(d)) ==> d.name in Loaded(cells).defs && Loaded(cells).defs[d.name] == d
  {
    LoadedIsTidy(assign, cells);
    hide Loaded;
    hide PrefixScan;
    ScannedEntries(assign, cells, k);
    DefKeyIsNoEntry(d);
    if Seen(cells, d.Key()) == Some(DefCell(d)) {
      LoadedTells(assign, cells, d.Key());
      HeldIsListed(Loaded(cells), d.Key());
    }
    hide KeyedOn;
    hide TwoViews;
    hide ParseDef;
    hide RefOf;
  }

  /** Opening a sound store gives a state whose two views are exactly the stored
      entries, which are exactly what the stored definitions imply for the
      stored rows, with nothing pending. */
  lemma LoadedExact(env: Env, assign: Assignment, cells: Cells, rows: Rows)
    requires Sound(env, assign, Bare(cells), rows) && IsCurrent(cells)
    ensures TwoViews(Loaded(cells)) && Mirrors(cells, Loaded(cells))
    ensures Agrees(env, Loaded(cells), rows)
    ensures Loaded(cells).dirty == map[] && Loaded(cells).tombstoned == {} && Loaded(cells).sink == None
  {
    LoadedIsTidy(assign, cells);
    var s := Loaded(cells);
    forall k | k != FormatKey() ensures Shown(cells, s, k) == Told(s, k) {
      LoadedTells(assign, cells, k);
    }
    hide Loaded;
    forall k ensures AgreesOn(env, s, rows, k) {
      assert FaithfulOn(env, Bare(cells), rows, k);
      FaithfulIffAgrees(env, cells, s, rows, k);
    }
  }

  /** Opening a store that holds nothing gives the empty state. */
  lemma LoadedFresh()
    ensures Loaded(map[]) == EMPTY && IsCurrent(Stamped(map[]))
  {
    var none: Cells := map[];
    PrefixScanExact(none.Keys, DefsPrefix());
    PrefixScanExact(none.Keys, EntriesPrefix());
    assert Under(none.Keys, DefsPrefix()) == {} && Under(none.Keys, EntriesPrefix()) == {};
  }

  /** A mirrored state in agreement with its rows is seen as a sound view. */
  lemma StateIsSound(env: Env, assign: Assignment, cells: Cells, s: State, rows: Rows)
    requires TwoViews(s) && Mirrors(cells, s) && s.sink.None? && Agrees(env, s, rows)
    requires IsCurrent(cells) && FormatKey() !in s.dirty
    requires forall n :: n in s.defs ==> s.defs[n].engine == assign(s.defs[n].collection)
    ensures Sound(env, assign, View(cells, s.dirty), rows)
  {
    var v := View(cells, s.dirty);
    forall k ensures KeyedOn(v, assign, k) {
      StateIsKeyed(assign, cells, s, k);
    }
    forall a, b ensures OneName(v, a, b) {
      if v.At(a.Key()) == Some(DefCell(a)) && v.At(b.Key()) == Some(DefCell(b)) {
        StateNamesOnce(cells, s, a);
        StateNamesOnce(cells, s, b);
      }
    }
    hide Mirrors;
    hide TwoViews;
    forall k ensures FaithfulOn(env, v, rows, k) {
      assert AgreesOn(env, s, rows, k);
      FaithfulIffAgrees(env, cells, s, rows, k);
    }
  }

  lemma StateIsKeyed(assign: Assignment, cells: Cells, s: State, k: Bytes)
    requires TwoViews(s) && Mirrors(cells, s) && s.sink.None?
    requires IsCurrent(cells) && FormatKey() !in s.dirty
    requires forall n :: n in s.defs ==> s.defs[n].engine == assign(s.defs[n].collection)
    ensures KeyedOn(View(cells, s.dirty), assign, k)
  {
    if k != FormatKey() {
      assert Shown(cells, s, k) == Told(s, k);
      if ParseDef(k).Some? { ParsedDefRebuilds(k); }
    }
  }

  lemma StateNamesOnce(cells: Cells, s: State, a: IndexDef)
    requires TwoViews(s) && Mirrors(cells, s) && s.sink.None?
    requires Visible(cells, s.dirty, a.Key()) == Some(DefCell(a))
    ensures a.name in s.defs && s.defs[a.name] == a
  {
    DefKeyIsNoEntry(a);
    assert Shown(cells, s, a.Key()) == Told(s, a.Key());
  }
}
