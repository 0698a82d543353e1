/**
 Qualified names of DWARF debugging entries.  An entry may cite another as its specification and leave
 out what the other one says; entries that can be cited are recorded in a table as they are met.
 */
module DieNames {
  import opened Options

  /** What the table keeps of an entry: its full name, or its own name and that of its scope. */
  datatype Specification = Specification(qualifiedName: string, enclosingName: string, unqualifiedName: string)

  /** An entry's attributes, as far as they bear on its name; absent strings are empty. */
  datatype Attributes = Attributes(name: string, demangled: string, raw: string, declaration: bool)

  /** How a language puts names together; assembler has no scopes and drops them. */
  datatype Language = Separated(separator: string) | Assembler

  /** Language::MakeQualifiedName. */
  function MakeQualifiedName(parent: string, language: Language, name: string): string {
    if parent == "" || language.Assembler? then name else parent + language.separator + name
  }

  function NameOf(s: Specification, language: Language): string {
    if s.qualifiedName != "" then s.qualifiedName
    else MakeQualifiedName(s.enclosingName, language, s.unqualifiedName)
  }

  function Qualified(a: Attributes, cited: Option<Specification>): string {
    if a.demangled != "" then a.demangled
    else if cited.Some? then cited.value.qualifiedName
    else ""
  }

  function Unqualified(a: Attributes, cited: Option<Specification>): Option<string> {
    if a.name != "" then Some(a.name)
    else if cited.Some? then Some(cited.value.unqualifiedName)
    else if a.raw != "" then Some(a.raw)
    else None
  }

  function Enclosing(scope: string, cited: Option<Specification>): string {
    if cited.Some? then cited.value.enclosingName else scope
  }

  /** The name of an entry in scope `scope`. */
  function Name(a: Attributes, scope: string, cited: Option<Specification>, language: Language): string {
    if Qualified(a, cited) != "" then Qualified(a, cited)
    else if Unqualified(a, cited).Some? then
      MakeQualifiedName(Enclosing(scope, cited), language, Unqualified(a, cited).value)
    else ""
  }

  /** What the table gets; a full name is recorded for declarations only, a plain one always. */
  function Recorded(a: Attributes, scope: string, cited: Option<Specification>): Option<Specification> {
    if Qualified(a, cited) != "" then
      if a.declaration then Some(Specification(Qualified(a, cited), "", "")) else None
    else if Unqualified(a, cited).Some? then
      Some(Specification("", Enclosing(scope, cited), Unqualified(a, cited).value))
    else None
  }

  /** The record of an entry gives back its name. */
  lemma RecordGivesName(a: Attributes, scope: string, cited: Option<Specification>, language: Language)
    requires Recorded(a, scope, cited).Some?
    ensures NameOf(Recorded(a, scope, cited).value, language) == Name(a, scope, cited, language)
  {
  }

  predicate Nameless(a: Attributes) { a.name == "" && a.demangled == "" }

  /** With nothing of its own, an entry has exactly the recorded name of the one it cites, in any scope. */
  lemma NamelessTakesName(a: Attributes, scope: string, cited: Specification, language: Language)
    requires Nameless(a)
    ensures Name(a, scope, Some(cited), language) == NameOf(cited, language)
    ensures Recorded(a, scope, Some(cited)).Some? <==> a.declaration || cited.qualifiedName == ""
    ensures Recorded(a, scope, Some(cited)).Some? ==>
      NameOf(Recorded(a, scope, Some(cited)).value, language) == NameOf(cited, language)
  {
  }

  /** A namespace or function that is no declaration: its plain name is recorded all the same. */
  lemma RecordedThoughDefined(a: Attributes, scope: string, cited: Option<Specification>)
    requires !a.declaration
    ensures Recorded(a, scope, cited).Some? <==> Qualified(a, cited) == "" && Unqualified(a, cited).Some?
    ensures Recorded(Attributes("f", "", "", false), "", None) == Some(Specification("", "", "f"))
  {
  }

  /** In two languages a recorded name reads the same unless it has a scope that one of them treats otherwise. */
  lemma NamesAgreeIff(s: Specification, one: Language, other: Language)
    ensures NameOf(s, one) == NameOf(s, other) <==> s.qualifiedName != "" || s.enclosingName == "" || one == other
  {
    var e, u := s.enclosingName, s.unqualifiedName;
    if s.qualifiedName == "" && e != "" && NameOf(s, one) == NameOf(s, other) {
      assert one.Assembler? <==> |NameOf(s, one)| == |u|;
      assert other.Assembler? <==> |NameOf(s, other)| == |u|;
      if one.Separated? {
        SeparatorsAgree(e, one.separator, other.separator, u);
      }
    }
  }

  lemma SeparatorsAgree(e: string, one: string, other: string, u: string)
    requires e + one + u == e + other + u
    ensures one == other
  {
    assert |one| == |other|;
    assert (e + one + u)[|e|..|e| + |one|] == one && (e + other + u)[|e|..|e| + |other|] == other;
  }

  // ----- Runs over the entries of a file

  /** An entry as met: its offset, the scope it sits in and the offset it cites, if any. */
  datatype Die = Die(offset: nat, scope: Option<nat>, cites: Option<nat>, attributes: Attributes, language: Language)

  datatype World = World(table: map<nat, Specification>, names: map<nat, string>, dies: map<nat, Die>)

  function Looked(w: World, t: Option<nat>): Option<Specification> {
    if t.Some? && t.value in w.table then Some(w.table[t.value]) else None
  }

  function ScopeName(w: World, d: Die): string {
    if d.scope.Some? && d.scope.value in w.names then w.names[d.scope.value] else ""
  }

  function Step(w: World, d: Die): World {
    var name := Name(d.attributes, ScopeName(w, d), Looked(w, d.cites), d.language);
    var record := Recorded(d.attributes, ScopeName(w, d), Looked(w, d.cites));
    World(if record.Some? then w.table[d.offset := record.value] else w.table,
          w.names[d.offset := name],
          w.dies[d.offset := d])
  }

  function Run(dies: seq<Die>): World {
    if dies == [] then World(map[], map[], map[]) else Step(Run(dies[..|dies| - 1]), dies[|dies| - 1])
  }

  ghost predicate UniqueOffsets(dies: seq<Die>) {
    forall i, j | 0 <= i < j < |dies| :: dies[i].offset != dies[j].offset
  }

  ghost predicate Sound(w: World) {
    && w.table.Keys <= w.names.Keys == w.dies.Keys
    && (forall o | o in w.table :: NameOf(w.table[o], w.dies[o].language) == w.names[o])
  }

  lemma StepKeeps(w: World, d: Die)
    requires Sound(w) && d.offset !in w.dies
    ensures Sound(Step(w, d))
  {
    if Recorded(d.attributes, ScopeName(w, d), Looked(w, d.cites)).Some? {
      RecordGivesName(d.attributes, ScopeName(w, d), Looked(w, d.cites), d.language);
    }
  }

  lemma {:induction false} RunIsSound(dies: seq<Die>)
    requires UniqueOffsets(dies)
    ensures Sound(Run(dies))
    ensures forall o :: o in Run(dies).dies <==> exists i :: 0 <= i < |dies| && dies[i].offset == o
  {
    if dies != [] {
      var init, d := dies[..|dies| - 1], dies[|dies| - 1];
      RunIsSound(init);
      StepKeeps(Run(init), d);
      assert forall i | 0 <= i < |init| :: dies[i] == init[i];
    }
  }

  /** Entry `i` leaves its name to an entry that was recorded before it. */
  ghost predicate Defers(dies: seq<Die>, i: nat, t: nat) {
    && i < |dies| && Nameless(dies[i].attributes) && dies[i].cites == Some(t)
    && t in Run(dies[..i]).table
  }

  /** Later entries leave the table and the names of earlier ones alone. */
  lemma {:induction false} EarlierKept(dies: seq<Die>, i: nat, o: nat)
    requires UniqueOffsets(dies) && i <= |dies| && o in Run(dies[..i]).dies
    ensures var w, v := Run(dies[..i]), Run(dies);
      && o in w.names && o in v.names && v.names[o] == w.names[o]
      && o in v.dies && v.dies[o] == w.dies[o]
      && (o in v.table <==> o in w.table) && (o in w.table ==> v.table[o] == w.table[o])
  {
    hide Name, NameOf, Recorded, ScopeName;
    RunIsSound(dies[..i]);
    if i == |dies| {
      assert dies[..i] == dies;
    } else {
      var init := dies[..|dies| - 1];
      assert init[..i] == dies[..i];
      EarlierKept(init, i, o);
      var k :| 0 <= k < |dies[..i]| && dies[..i][k].offset == o;
      assert dies[k].offset == o;
    }
  }

  /** Such an entry has the recorded name of the one it cites, whatever scope it sits in. */
  lemma {:induction false} DeferredName(dies: seq<Die>, i: nat, t: nat)
    requires UniqueOffsets(dies) && Defers(dies, i, t)
    ensures var w, o := Run(dies), dies[i].offset;
      && t in w.table && o in w.names && t in w.names && o in w.dies && w.dies[o] == dies[i] && t in w.dies
      && w.names[o] == NameOf(w.table[t], dies[i].language)
      && w.names[t] == NameOf(w.table[t], w.dies[t].language)
  {
    hide Name, NameOf, Recorded, UniqueOffsets;
    RunIsSound(dies);
    StepAt(dies, i);
    PrefixUnique(dies, i);
    RunIsSound(dies[..i]);
    NamelessTakesName(dies[i].attributes, ScopeName(Run(dies[..i]), dies[i]), Run(dies[..i]).table[t],
                      dies[i].language);
    EarlierKept(dies, i + 1, dies[i].offset);
    EarlierKept(dies, i, t);
  }

  lemma PrefixUnique(dies: seq<Die>, i: nat)
    requires UniqueOffsets(dies) && i <= |dies|
    ensures UniqueOffsets(dies[..i])
  {
  }

  lemma StepAt(dies: seq<Die>, i: nat)
    requires i < |dies|
    ensures Run(dies[..i + 1]) == Step(Run(dies[..i]), dies[i])
  {
    var upTo := dies[..i + 1];
    assert upTo[..|upTo| - 1] == dies[..i];
  }

  /** It is the very name of the cited entry unless the two languages put names together differently. */
  lemma DeferredNameIsSameIff(dies: seq<Die>, i: nat, t: nat)
    requires UniqueOffsets(dies) && Defers(dies, i, t)
    ensures var w, o := Run(dies), dies[i].offset;
      && t in w.table && o in w.names && t in w.names && t in w.dies
      && (w.names[o] == w.names[t]
          <==> || w.table[t].qualifiedName != "" || w.table[t].enclosingName == ""
               || dies[i].language == w.dies[t].language)
  {
    DeferredName(dies, i, t);
    NamesAgreeIff(Run(dies).table[t], dies[i].language, Run(dies).dies[t].language);
  }

  /** Places of entries, each leaving its name to the one before it. */
  ghost predicate Chain(dies: seq<Die>, places: seq<nat>) {
    && places != []
    && (forall k | 0 <= k < |places| :: places[k] < |dies|)
    && (forall k: nat | k + 1 < |places| :: Defers(dies, places[k + 1], dies[places[k]].offset))
  }

  /** A chain without its last entry. */
  lemma ChainShorter(dies: seq<Die>, places: seq<nat>)
    requires Chain(dies, places) && |places| > 1
    ensures Chain(dies, places[..|places| - 1])
    ensures Defers(dies, places[|places| - 1], dies[places[|places| - 2]].offset)
  {
    var before, n := places[..|places| - 1], |places| - 2;
    forall k: nat | k + 1 < |before|
      ensures Defers(dies, before[k + 1], dies[before[k]].offset)
    {
      assert before[k + 1] == places[k + 1] && before[k] == places[k];
    }
    assert Defers(dies, places[n + 1], dies[places[n]].offset);
  }

  /** What a citing entry leaves in the table, if it does, reads like the record it cites. */
  lemma {:induction false} RecordReadsAlike(dies: seq<Die>, i: nat, t: nat, language: Language)
    requires UniqueOffsets(dies) && Defers(dies, i, t) && dies[i].offset in Run(dies).table
    ensures t in Run(dies).table
    ensures NameOf(Run(dies).table[dies[i].offset], language) == NameOf(Run(dies).table[t], language)
  {
    hide Name, NameOf, Recorded, UniqueOffsets;
    DeferredName(dies, i, t);
    StepAt(dies, i);
    PrefixUnique(dies, i);
    RunIsSound(dies[..i]);
    NewOffset(dies, i);
    NamelessTakesName(dies[i].attributes, ScopeName(Run(dies[..i]), dies[i]), Run(dies[..i]).table[t], language);
    EarlierKept(dies, i + 1, dies[i].offset);
    EarlierKept(dies, i, t);
  }

  lemma {:induction false} NewOffset(dies: seq<Die>, i: nat)
    requires UniqueOffsets(dies) && i < |dies|
    ensures dies[i].offset !in Run(dies[..i]).table
  {
    PrefixUnique(dies, i);
    RunIsSound(dies[..i]);
    assert forall k | 0 <= k < |dies[..i]| :: dies[..i][k] == dies[k] && dies[k].offset != dies[i].offset;
  }

  /** Down a chain every record reads, in any language, like the one at its beginning. */
  lemma {:induction false} ChainReadsAlike(dies: seq<Die>, places: seq<nat>, language: Language)
    requires UniqueOffsets(dies) && Chain(dies, places)
    requires dies[places[|places| - 1]].offset in Run(dies).table
    ensures dies[places[0]].offset in Run(dies).table
    ensures NameOf(Run(dies).table[dies[places[|places| - 1]].offset], language)
         == NameOf(Run(dies).table[dies[places[0]].offset], language)
  {
    var n := |places| - 1;
    if n > 0 {
      hide NameOf, Defers;
      ChainShorter(dies, places);
      RecordReadsAlike(dies, places[n], dies[places[n - 1]].offset, language);
      ChainReadsAlike(dies, places[..n], language);
    }
  }

  /**
   Through a chain of any length the last entry has the name of the first, unless the languages of these two
   put names together differently; those in between do not matter.
   */
  lemma {:induction false} ChainsKeepNamesIff(dies: seq<Die>, places: seq<nat>)
    requires UniqueOffsets(dies) && Chain(dies, places) && |places| > 1
    ensures var w, first, last := Run(dies), dies[places[0]], dies[places[|places| - 1]];
      && first.offset in w.names && last.offset in w.names && first.offset in w.table
      && var record := w.table[first.offset];
      && w.names[last.offset] == NameOf(record, last.language)
      && (w.names[last.offset] == w.names[first.offset]
          <==> record.qualifiedName != "" || record.enclosingName == "" || last.language == first.language)
  {
    hide NameOf, Defers;
    var n := |places| - 1;
    ChainShorter(dies, places);
    DeferredName(dies, places[n], dies[places[n - 1]].offset);
    ChainReadsAlike(dies, places[..n], dies[places[n]].language);
    RunIsSound(dies);
    DieAt(dies, places[0]);
    NamesAgreeIff(Run(dies).table[dies[places[0]].offset], dies[places[n]].language, dies[places[0]].language);
  }

  lemma {:induction false} DieAt(dies: seq<Die>, i: nat)
    requires UniqueOffsets(dies) && i < |dies|
    ensures dies[i].offset in Run(dies).dies && Run(dies).dies[dies[i].offset] == dies[i]
  {
    var upTo := dies[..i + 1];
    assert upTo[..|upTo| - 1] == dies[..i];
    RunIsSound(upTo);
    EarlierKept(dies, i + 1, dies[i].offset);
  }

  // ----- Every name, spelled out

  /** A plain name in a scope, as this language writes it. */
  predicate InScope(name: string, scope: string, plain: string, language: Language) {
    match language
    case Separated(separator) => name == if scope == "" then plain else scope + separator + plain
    case Assembler => name == plain
  }

  /** The entry cites one that is recorded by then. */
  ghost predicate CitesRecord(dies: seq<Die>, i: nat, t: nat) {
    i < |dies| && dies[i].cites == Some(t) && t in Run(dies[..i]).table
  }

  /** The scope of the entry was met before and has this name. */
  ghost predicate SitsIn(dies: seq<Die>, i: nat, scope: string) {
    && i < |dies|
    && if dies[i].scope.Some? && dies[i].scope.value in Run(dies[..i]).names
       then scope == Run(dies[..i]).names[dies[i].scope.value] else scope == ""
  }

  lemma {:induction false} NameStays(dies: seq<Die>, i: nat)
    requires UniqueOffsets(dies) && i < |dies|
    ensures dies[i].offset in Run(dies).names && dies[i].offset in Run(dies[..i + 1]).names
    ensures Run(dies).names[dies[i].offset] == Run(dies[..i + 1]).names[dies[i].offset]
  {
    hide Name, Recorded;
    StepAt(dies, i);
    EarlierKept(dies, i + 1, dies[i].offset);
  }

  /** A demangled name wins over everything. */
  lemma {:induction false} DemangledWins(dies: seq<Die>, i: nat)
    requires UniqueOffsets(dies) && i < |dies| && dies[i].attributes.demangled != ""
    ensures dies[i].offset in Run(dies).names
    ensures Run(dies).names[dies[i].offset] == dies[i].attributes.demangled
  {
    NameStays(dies, i);
    StepAt(dies, i);
  }

  /** Next comes a full name that was recorded of the cited entry. */
  lemma {:induction false} CitedFullNameWins(dies: seq<Die>, i: nat, t: nat)
    requires UniqueOffsets(dies) && CitesRecord(dies, i, t) && dies[i].attributes.demangled == ""
    requires Run(dies[..i]).table[t].qualifiedName != ""
    ensures dies[i].offset in Run(dies).names
    ensures Run(dies).names[dies[i].offset] == Run(dies[..i]).table[t].qualifiedName
  {
    NameStays(dies, i);
    StepAt(dies, i);
  }

  /** Otherwise it is the entry's own name, or without one the cited plain name, in the scope of the cited entry. */
  lemma {:induction false} CitedScopeHolds(dies: seq<Die>, i: nat, t: nat)
    requires UniqueOffsets(dies) && CitesRecord(dies, i, t) && dies[i].attributes.demangled == ""
    requires Run(dies[..i]).table[t].qualifiedName == ""
    ensures dies[i].offset in Run(dies).names
    ensures var record, own := Run(dies[..i]).table[t], dies[i].attributes.name;
      InScope(Run(dies).names[dies[i].offset], record.enclosingName,
              if own != "" then own else record.unqualifiedName, dies[i].language)
  {
    NameStays(dies, i);
    StepAt(dies, i);
  }

  /** Without a recorded citation the entry's own name, or else its raw name, in its own scope; or no name. */
  lemma {:induction false} OwnScopeHolds(dies: seq<Die>, i: nat, scope: string)
    requires UniqueOffsets(dies) && SitsIn(dies, i, scope) && dies[i].attributes.demangled == ""
    requires forall t :: !CitesRecord(dies, i, t)
    ensures dies[i].offset in Run(dies).names
    ensures var name, own, raw := Run(dies).names[dies[i].offset], dies[i].attributes.name, dies[i].attributes.raw;
      if own == "" && raw == "" then name == ""
      else InScope(name, scope, if own != "" then own else raw, dies[i].language)
  {
    NameStays(dies, i);
    StepAt(dies, i);
    assert dies[i].cites.Some? ==> !CitesRecord(dies, i, dies[i].cites.value);
  }

  /** What an entry leaves for others: a full name of a declaration, or a plain name with the name of its scope. */
  lemma {:induction false} RecordSpelledOut(dies: seq<Die>, i: nat, scope: string)
    requires UniqueOffsets(dies) && SitsIn(dies, i, scope)
    requires forall t :: !CitesRecord(dies, i, t)
    ensures var o, a, table := dies[i].offset, dies[i].attributes, Run(dies).table;
      var plain := if a.name != "" then a.name else a.raw;
      if a.demangled != "" then
        if a.declaration then o in table && table[o] == Specification(a.demangled, "", "") else o !in table
      else if plain != "" then o in table && table[o] == Specification("", scope, plain)
      else o !in table
  {
    hide Name, NameOf;
    StepAt(dies, i);
    NewOffset(dies, i);
    EarlierKept(dies, i + 1, dies[i].offset);
    assert dies[i].cites.Some? ==> !CitesRecord(dies, i, dies[i].cites.value);
  }

  /** Entries each of which sits in the one before; the first sits in none. */
  ghost predicate Nested(dies: seq<Die>, places: seq<nat>) {
    && places != []
    && (forall k | 0 <= k < |places| :: places[k] < |dies| && Plain(dies, places[k]))
    && dies[places[0]].scope.None?
    && (forall k: nat | k + 1 < |places| ::
          places[k] < places[k + 1] && dies[places[k + 1]].scope == Some(dies[places[k]].offset))
  }

  /** An entry with a name of its own and nothing that would take its place. */
  ghost predicate Plain(dies: seq<Die>, i: nat)
    requires i < |dies|
  {
    && dies[i].attributes.name != "" && dies[i].attributes.demangled == ""
    && forall t :: !CitesRecord(dies, i, t)
  }

  function JoinedNames(dies: seq<Die>, places: seq<nat>, separator: string): string
    requires places != [] && forall k | 0 <= k < |places| :: places[k] < |dies|
  {
    var last := dies[places[|places| - 1]].attributes.name;
    if |places| == 1 then last else JoinedNames(dies, places[..|places| - 1], separator) + separator + last
  }

  lemma {:induction false} ScopeOf(dies: seq<Die>, j: nat, i: nat)
    requires UniqueOffsets(dies) && j < i < |dies| && dies[i].scope == Some(dies[j].offset)
    ensures dies[j].offset in Run(dies).names && SitsIn(dies, i, Run(dies).names[dies[j].offset])
  {
    PrefixUnique(dies, i);
    NameStays(dies[..i], j);
    assert dies[..i][j] == dies[j] && dies[..i][..j + 1] == dies[..j + 1];
    NameStays(dies, j);
  }

  /** Namespaces and classes in one another: their names joined from the outermost in. */
  lemma {:induction false} NestedNamesJoin(dies: seq<Die>, places: seq<nat>, separator: string)
    requires UniqueOffsets(dies) && Nested(dies, places)
    requires forall k | 0 <= k < |places| :: dies[places[k]].language == Separated(separator)
    ensures var o := dies[places[|places| - 1]].offset;
      o in Run(dies).names && Run(dies).names[o] == JoinedNames(dies, places, separator)
    decreases |places|
  {
    hide Run, UniqueOffsets, CitesRecord, SitsIn;
    var n := |places| - 1;
    if n == 0 {
      NoScope(dies, places[0]);
      OwnScopeHolds(dies, places[0], "");
    } else {
      NestedShorter(dies, places);
      NestedNamesJoin(dies, places[..n], separator);
      assert places[(n - 1) + 1] == places[n] && places[..n][n - 1] == places[n - 1];
      ScopeOf(dies, places[n - 1], places[n]);
      JoinedNotEmpty(dies, places[..n], separator);
      OwnScopeHolds(dies, places[n], Run(dies).names[dies[places[n - 1]].offset]);
    }
  }

  lemma NoScope(dies: seq<Die>, i: nat)
    requires i < |dies| && dies[i].scope.None?
    ensures SitsIn(dies, i, "")
  {
  }

  lemma NestedShorter(dies: seq<Die>, places: seq<nat>)
    requires Nested(dies, places) && |places| > 1
    ensures Nested(dies, places[..|places| - 1])
  {
    hide Plain;
    var before := places[..|places| - 1];
    forall k: nat | k + 1 < |before|
      ensures before[k] < before[k + 1] && dies[before[k + 1]].scope == Some(dies[before[k]].offset)
    {
      assert before[k] == places[k] && before[k + 1] == places[k + 1];
    }
  }

  lemma JoinedNotEmpty(dies: seq<Die>, places: seq<nat>, separator: string)
    requires Nested(dies, places)
    ensures JoinedNames(dies, places, separator) != ""
  {
    assert Plain(dies, places[|places| - 1]);
  }

  // ----- Files of several units

  /** A compilation unit: where it starts, its language and its entries in order. */
  datatype Unit = Unit(start: nat, language: Language, dies: seq<Die>)

  const NOTHING := World(map[], map[], map[])

  /** The entry as its handler hears of it: without `inter`, a citation of an earlier unit is refused. */
  function Heard(d: Die, start: nat, inter: bool): Die {
    if !inter && d.cites.Some? && d.cites.value < start then d.(cites := None) else d
  }

  function StepIn(w: World, d: Die, start: nat, inter: bool): World {
    Step(w, Heard(d, start, inter)).(dies := w.dies[d.offset := d])
  }

  function RunIn(w: World, start: nat, dies: seq<Die>, inter: bool): World {
    if dies == [] then w else StepIn(RunIn(w, start, dies[..|dies| - 1], inter), dies[|dies| - 1], start, inter)
  }

  /** The table behind a unit: kept with `inter`, and by accident behind assembler, which has no functions. */
  function Behind(w: World, u: Unit, inter: bool): World {
    if inter || u.language.Assembler? then w else w.(table := map[])
  }

  function RunFile(units: seq<Unit>, inter: bool): World {
    if units == [] then NOTHING
    else
      var u := units[|units| - 1];
      Behind(RunIn(RunFile(units[..|units| - 1], inter), u.start, u.dies, inter), u, inter)
  }

  /** The table is empty behind a unit with functions, unless references between units are handled. */
  lemma TableBehind(units: seq<Unit>)
    requires units != [] && !units[|units| - 1].language.Assembler?
    ensures RunFile(units, false).table == map[]
  {
  }

  function AllDies(units: seq<Unit>): seq<Die> {
    if units == [] then [] else AllDies(units[..|units| - 1]) + units[|units| - 1].dies
  }

  lemma {:induction false} RunAppends(dies: seq<Die>, start: nat, more: seq<Die>)
    ensures RunIn(Run(dies), start, more, true) == Run(dies + more)
    decreases |more|
  {
    if more == [] {
      assert dies + more == dies;
    } else {
      RunAppends(dies, start, more[..|more| - 1]);
      assert (dies + more)[..|dies + more| - 1] == dies + more[..|more| - 1];
    }
  }

  /** With references between units handled, a file is one run over all its entries. */
  lemma {:induction false} FileIsOneRun(units: seq<Unit>)
    ensures RunFile(units, true) == Run(AllDies(units))
  {
    if units != [] {
      var u := units[|units| - 1];
      FileIsOneRun(units[..|units| - 1]);
      RunAppends(AllDies(units[..|units| - 1]), u.start, u.dies);
    }
  }

  /** The entry and its scope are in a unit that starts here. */
  predicate Inside(start: nat, d: Die) { start <= d.offset && (d.scope.Some? ==> start <= d.scope.value) }

  /** Units lie one behind the other, each with its entries and their scopes. */
  ghost predicate LaidOut(units: seq<Unit>) {
    && (forall u, d | u in units && d in u.dies :: Inside(u.start, d))
    && (forall i, j, d | 0 <= i < j < |units| && d in units[i].dies :: d.offset < units[j].start)
  }

  /** No entry cites one of an earlier unit. */
  ghost predicate CitesAtHome(units: seq<Unit>) { forall u, d | u in units && d in u.dies :: AtHome(u.start, d) }

  predicate AtHome(start: nat, d: Die) { d.cites.Some? ==> start <= d.cites.value }

  /** From `start` on the worlds hold the same; the second holds nothing before. */
  ghost predicate SameFrom(start: nat, w: World, v: World) {
    && v.table.Keys <= v.names.Keys
    && (forall o | o in v.names :: start <= o && o in w.names && w.names[o] == v.names[o])
    && (forall o | o in v.table :: o in w.table && w.table[o] == v.table[o])
    && (forall o | start <= o && o in w.names :: o in v.names)
    && (forall o | start <= o && o in w.table :: o in v.table)
  }

  lemma StepSameFrom(start: nat, w: World, v: World, d: Die, inter: bool)
    requires SameFrom(start, w, v) && Inside(start, d) && (inter ==> AtHome(start, d))
    ensures SameFrom(start, StepIn(w, d, start, inter), Step(v, d))
  {
    hide Name, Recorded;
    var e := Heard(d, start, inter);
    assert Looked(w, e.cites) == Looked(v, d.cites);
    assert ScopeName(w, e) == ScopeName(v, d);
  }

  /** In a world that knows nothing from its start on, a unit goes as if it were alone. */
  lemma {:induction false} UnitAlone(w: World, start: nat, dies: seq<Die>, inter: bool)
    requires SameFrom(start, w, NOTHING)
    requires forall d | d in dies :: Inside(start, d) && (inter ==> AtHome(start, d))
    ensures SameFrom(start, RunIn(w, start, dies, inter), Run(dies))
    decreases |dies|
  {
    if dies != [] {
      hide SameFrom, StepIn, Step;
      UnitAlone(w, start, dies[..|dies| - 1], inter);
      assert dies[|dies| - 1] in dies;
      StepSameFrom(start, RunIn(w, start, dies[..|dies| - 1], inter), Run(dies[..|dies| - 1]), dies[|dies| - 1], inter);
    }
  }

  /** A unit changes only what is said of its own offsets. */
  lemma {:induction false} OthersStay(w: World, start: nat, dies: seq<Die>, inter: bool, o: nat)
    requires forall d | d in dies :: d.offset != o
    ensures var v := RunIn(w, start, dies, inter);
      && (o in v.names <==> o in w.names) && (o in w.names ==> v.names[o] == w.names[o])
      && (o in v.table <==> o in w.table)
    decreases |dies|
  {
    if dies != [] {
      hide Name, Recorded, Heard;
      OthersStay(w, start, dies[..|dies| - 1], inter, o);
      assert dies[|dies| - 1] in dies && Heard(dies[|dies| - 1], start, inter).offset == dies[|dies| - 1].offset by {
        HeardAt(dies[|dies| - 1], start, inter);
      }
    }
  }

  lemma HeardAt(d: Die, start: nat, inter: bool)
    ensures Heard(d, start, inter).offset == d.offset
  {
  }

  lemma {:induction false} NothingBeyond(units: seq<Unit>, inter: bool, o: nat)
    requires forall u, d | u in units && d in u.dies :: d.offset < o
    ensures o !in RunFile(units, inter).names && o !in RunFile(units, inter).table
  {
    if units != [] {
      var u := units[|units| - 1];
      assert u in units;
      NothingBeyond(units[..|units| - 1], inter, o);
      OthersStay(RunFile(units[..|units| - 1], inter), u.start, u.dies, inter, o);
    }
  }

  /**
   Every unit of a file has the names it would have in a file of its own, if references between units are not
   handled, or if there are none.  Tables left behind do no harm, for what they hold is refused.
   */
  lemma {:induction false} UnitsAreApart(units: seq<Unit>, inter: bool, i: nat, d: Die)
    requires LaidOut(units) && (inter ==> CitesAtHome(units)) && i < |units| && d in units[i].dies
    ensures var w, v := RunFile(units, inter), Run(units[i].dies);
      d.offset in w.names && d.offset in v.names && w.names[d.offset] == v.names[d.offset]
  {
    hide Step, StepIn;
    var init, u := units[..|units| - 1], units[|units| - 1];
    var before := RunFile(init, inter);
    assert u in units;
    if i < |init| {
      assert init[i] == units[i] && d.offset < u.start;
      UnitsAreApart(init, inter, i, d);
      OthersStay(before, u.start, u.dies, inter, d.offset);
    } else {
      forall o | u.start <= o
        ensures o !in before.names && o !in before.table
      {
        forall u', d' | u' in init && d' in u'.dies
          ensures d'.offset < o
        {
          var k :| 0 <= k < |init| && init[k] == u';
          assert units[k] == u';
        }
        NothingBeyond(init, inter, o);
      }
      UnitAlone(before, u.start, u.dies, inter);
      Named(u.dies, d);
    }
  }

  lemma {:induction false} Named(dies: seq<Die>, d: Die)
    requires d in dies
    ensures d.offset in Run(dies).names
  {
    hide Name, Recorded;
    if d in dies[..|dies| - 1] {
      Named(dies[..|dies| - 1], d);
    }
  }

  lemma OneMoreEntry(units: seq<Unit>, u: Unit, d: Die, inter: bool)
    requires u.dies == [d]
    ensures RunFile(units + [u], inter) == Behind(StepIn(RunFile(units, inter), d, u.start, inter), u, inter)
  {
    hide StepIn, Behind;
    var w := RunFile(units, inter);
    assert (units + [u])[..|units|] == units;
    assert u.dies[..0] == [];
    assert RunIn(w, u.start, u.dies[..0], inter) == w;
  }

  const NAMED := Attributes("f", "", "", false)
  const UNNAMED := Attributes("", "", "", false)

  /** An entry with nothing of its own that cites one of the unit before has its name, or none at all. */
  lemma RefusedCitation(language: Language, inter: bool)
    ensures var first := Unit(0, language, [Die(1, None, None, NAMED, language)]);
      var second := Unit(10, language, [Die(11, None, Some(1), UNNAMED, language)]);
      && LaidOut([first, second])
      && RunFile([first, second], inter).names == map[1 := "f", 11 := if inter then "f" else ""]
  {
    hide RunFile;
    var d, e := Die(1, None, None, NAMED, language), Die(11, None, Some(1), UNNAMED, language);
    var first, second := Unit(0, language, [d]), Unit(10, language, [e]);
    assert [] + [first] == [first] && [first] + [second] == [first, second];
    assert RunFile([], inter) == NOTHING by { NoUnits(inter); }
    OneMoreEntry([], first, d, inter);
    OneMoreEntry([first], second, e, inter);
    var w := RunFile([first], inter);
    assert w.names == map[1 := "f"];
    assert inter ==> w.table == map[1 := Specification("", "", "f")];
  }

  lemma NoUnits(inter: bool)
    ensures RunFile([], inter) == NOTHING
  {
  }

  // ----- The handlers

  /** What DemangleName returns. */
  datatype DemangleResult = DemangleSuccess(demangled: string) | DemangleFailure | DontDemangle

  class FileContext {
    const handleInterCuRefs: bool
    var specifications: map<nat, Specification>

    constructor (handleInterCuRefs: bool)
      ensures this.handleInterCuRefs == handleInterCuRefs && specifications == map[]
    {
      this.handleInterCuRefs, specifications := handleInterCuRefs, map[];
    }

    method ClearSpecifications()
      modifies this
      ensures specifications == if handleInterCuRefs then old(specifications) else map[]
    {
      if !handleInterCuRefs {
        specifications := map[];
      }
    }

    predicate IsUnhandledInterCUReference(offset: nat, unitStart: nat) { !handleInterCuRefs && offset < unitStart }
  }

  datatype Warning = UnhandledReference(target: nat) | UnknownSpecification(target: nat)

  class GenericDIEHandler {
    const fileContext: FileContext
    const unitStart: nat
    const language: Language
    const scopeName: string
    const offset: nat
    var declaration: bool
    var specification: Option<Specification>
    var forwardRefDieOffset: nat
    var nameAttribute: string
    var demangledName: string
    var rawName: string
    var warnings: seq<Warning>

    constructor (fileContext: FileContext, unitStart: nat, language: Language, scopeName: string, offset: nat)
      ensures this.fileContext == fileContext && this.unitStart == unitStart && this.language == language
      ensures this.scopeName == scopeName && this.offset == offset && specification == None
      ensures Collected() == Attributes("", "", "", false)
    {
      this.fileContext, this.unitStart, this.language := fileContext, unitStart, language;
      this.scopeName, this.offset := scopeName, offset;
      declaration, specification, forwardRefDieOffset := false, None, 0;
      nameAttribute, demangledName, rawName, warnings := "", "", "", [];
    }

    function Collected(): Attributes
      reads this
    {
      Attributes(nameAttribute, demangledName, rawName, declaration)
    }

    method ProcessDeclaration(data: nat)
      modifies this`declaration
      ensures declaration <==> data != 0
    {
      declaration := data != 0;
    }

    /** DW_AT_specification: found only if it is allowed and already in the table. */
    method ProcessSpecification(data: nat)
      modifies this`specification, this`forwardRefDieOffset, this`warnings
      ensures var found := data in fileContext.specifications
          && !fileContext.IsUnhandledInterCUReference(data, unitStart);
        && specification == (if found then Some(fileContext.specifications[data]) else old(specification))
        && forwardRefDieOffset == (if !found && data > offset && data !in fileContext.specifications
                                      && !fileContext.IsUnhandledInterCUReference(data, unitStart)
                                   then data else old(forwardRefDieOffset))
      ensures warnings == old(warnings)
        + if fileContext.IsUnhandledInterCUReference(data, unitStart) then [UnhandledReference(data)]
          else if data !in fileContext.specifications && data <= offset then [UnknownSpecification(data)]
          else []
    {
      if fileContext.IsUnhandledInterCUReference(data, unitStart) {
        warnings := warnings + [UnhandledReference(data)];
        return;
      }
      if data in fileContext.specifications {
        specification := Some(fileContext.specifications[data]);
      } else if data > offset {
        forwardRefDieOffset := data;
      } else {
        warnings := warnings + [UnknownSpecification(data)];
      }
    }

    method ProcessName(data: string)
      modifies this`nameAttribute
      ensures nameAttribute == data
    {
      nameAttribute := data;
    }

    method ProcessLinkageName(data: string, result: DemangleResult)
      modifies this`demangledName, this`rawName
      ensures demangledName == (if result.DemangleSuccess? then result.demangled else "")
      ensures rawName == if result.DemangleSuccess? then old(rawName) else data
    {
      match result
      case DemangleSuccess(demangled) =>
        demangledName := demangled;
      case _ =>
        demangledName := "";
        rawName := data;
    }

    /** Computes the name and records it when another entry may cite it. */
    method ComputeQualifiedName() returns (name: string)
      modifies fileContext
      ensures name == Name(Collected(), scopeName, specification, language)
      ensures var record := Recorded(Collected(), scopeName, specification);
        fileContext.specifications
        == if record.Some? then old(fileContext.specifications)[offset := record.value]
           else old(fileContext.specifications)
    {
      var qualified: Option<string> := None;
      if demangledName != "" {
        qualified := Some(demangledName);
      } else if specification.Some? && specification.value.qualifiedName != "" {
        qualified := Some(specification.value.qualifiedName);
      }

      var unqualified: Option<string> := None;
      var enclosing := "";
      if qualified.None? {
        if nameAttribute != "" {
          unqualified := Some(nameAttribute);
        } else if specification.Some? {
          unqualified := Some(specification.value.unqualifiedName);
        } else if rawName != "" {
          unqualified := Some(rawName);
        }
        enclosing := if specification.Some? then specification.value.enclosingName else scopeName;
      }

      name := "";
      if qualified.Some? {
        name := qualified.value;
      } else if unqualified.Some? {
        name := MakeQualifiedName(enclosing, language, unqualified.value);
      }

      if (declaration && qualified.Some?) || unqualified.Some? {
        var record := if qualified.Some? then Specification(qualified.value, "", "")
                      else Specification("", enclosing, unqualified.value);
        fileContext.specifications := fileContext.specifications[offset := record];
      }
    }
  }

  /** A namespace, class, structure or union; its name is the scope of its children. */
  class NamedScopeHandler {
    const generic: GenericDIEHandler
    var childScopeName: string

    constructor (generic: GenericDIEHandler)
      ensures this.generic == generic
    {
      this.generic, childScopeName := generic, "";
    }

    method EndAttributes()
      modifies this, generic.fileContext
      ensures childScopeName == Name(generic.Collected(), generic.scopeName, generic.specification, generic.language)
      ensures var record := Recorded(generic.Collected(), generic.scopeName, generic.specification);
        generic.fileContext.specifications
        == if record.Some? then old(generic.fileContext.specifications)[generic.offset := record.value]
           else old(generic.fileContext.specifications)
    {
      childScopeName := generic.ComputeQualifiedName();
    }
  }

  /** The reader handing the units of a file to their handlers, one after another. */
  method ReadFile(context: FileContext, units: seq<Unit>) returns (names: map<nat, string>)
    requires context.specifications == map[]
    modifies context
    ensures names == RunFile(units, context.handleInterCuRefs).names
    ensures context.specifications == RunFile(units, context.handleInterCuRefs).table
  {
    names := map[];
    for i := 0 to |units|
      invariant names == RunFile(units[..i], context.handleInterCuRefs).names
      invariant context.specifications == RunFile(units[..i], context.handleInterCuRefs).table
    {
      assert units[..i + 1][..i] == units[..i];
      names := ReadUnit(context, units[i], names, RunFile(units[..i], context.handleInterCuRefs));
      if !units[i].language.Assembler? {
        context.ClearSpecifications();
      }
    }
    assert units[..|units|] == units;
  }

  method ReadUnit(context: FileContext, u: Unit, known: map<nat, string>, ghost w: World)
    returns (names: map<nat, string>)
    requires known == w.names && context.specifications == w.table
    modifies context
    ensures var v := RunIn(w, u.start, u.dies, context.handleInterCuRefs);
      names == v.names && context.specifications == v.table
  {
    hide StepIn;
    names := known;
    for i := 0 to |u.dies|
      invariant names == RunIn(w, u.start, u.dies[..i], context.handleInterCuRefs).names
      invariant context.specifications == RunIn(w, u.start, u.dies[..i], context.handleInterCuRefs).table
    {
      assert u.dies[..i + 1][..i] == u.dies[..i];
      names := ReadEntry(context, u.start, u.dies[i], names,
                         RunIn(w, u.start, u.dies[..i], context.handleInterCuRefs));
    }
    assert u.dies[..|u.dies|] == u.dies;
  }

  method ReadEntry(context: FileContext, start: nat, d: Die, known: map<nat, string>, ghost w: World)
    returns (names: map<nat, string>)
    requires known == w.names && context.specifications == w.table
    modifies context
    ensures var v := StepIn(w, d, start, context.handleInterCuRefs);
      names == v.names && context.specifications == v.table
  {
    hide Name, Recorded;
    var scope := if d.scope.Some? && d.scope.value in known then known[d.scope.value] else "";
    var handler := new GenericDIEHandler(context, start, d.language, scope, d.offset);
    Feed(handler, d);
    var name := handler.ComputeQualifiedName();
    names := known[d.offset := name];
  }

  method Feed(handler: GenericDIEHandler, d: Die)
    requires handler.Collected() == Attributes("", "", "", false) && handler.specification == None
    modifies handler
    ensures handler.Collected() == d.attributes
    ensures var cites := Heard(d, handler.unitStart, handler.fileContext.handleInterCuRefs).cites;
      handler.specification
      == if cites.Some? && cites.value in handler.fileContext.specifications
         then Some(handler.fileContext.specifications[cites.value]) else None
  {
    handler.ProcessName(d.attributes.name);
    if d.attributes.raw != "" {
      handler.ProcessLinkageName(d.attributes.raw, DontDemangle);
    }
    if d.attributes.demangled != "" {
      handler.ProcessLinkageName("", DemangleSuccess(d.attributes.demangled));
    }
    handler.ProcessDeclaration(if d.attributes.declaration then 1 else 0);
    if d.cites.Some? {
      handler.ProcessSpecification(d.cites.value);
    }
  }
}
