// The configuration table (backend/open_webui/models/config.py): reads, and the
// startup pass that renames, repairs and seeds its rows
// (backend/open_webui/config.py).
module ConfigStore {
  import opened Basics
  import opened ConfigPaths

  type Rows = map<string, Json>

  predicate Under(key: string, prefix: string) {
    prefix + "." <= key
  }

  // ---- rename --------------------------------------------------------------------

  function NewKey(key: string, oldPrefix: string, newPrefix: string): string
    requires Under(key, oldPrefix)
  {
    newPrefix + "." + key[|oldPrefix| + 1..]
  }

  function OldKey(key: string, oldPrefix: string, newPrefix: string): string
    requires |newPrefix| < |key|
  {
    oldPrefix + "." + key[|newPrefix| + 1..]
  }

  lemma OldOfNew(key: string, oldPrefix: string, newPrefix: string)
    requires Under(key, oldPrefix)
    ensures |newPrefix| < |NewKey(key, oldPrefix, newPrefix)|
    ensures OldKey(NewKey(key, oldPrefix, newPrefix), oldPrefix, newPrefix) == key
  {
  }

  function UnderKeys(rows: Rows, prefix: string): set<string> {
    set k | k in rows && Under(k, prefix)
  }

  function NewKeys(done: set<string>, oldPrefix: string, newPrefix: string): (r: set<string>)
    requires forall k :: k in done ==> Under(k, oldPrefix)
    ensures forall n :: n in r ==> |newPrefix| < |n| && OldKey(n, oldPrefix, newPrefix) in done
  {
    assert forall k :: k in done ==>
             |newPrefix| < |NewKey(k, oldPrefix, newPrefix)| &&
             OldKey(NewKey(k, oldPrefix, newPrefix), oldPrefix, newPrefix) == k by {
      forall k | k in done { OldOfNew(k, oldPrefix, newPrefix); }
    }
    set k | k in done :: NewKey(k, oldPrefix, newPrefix)
  }

  // The table once the rows of `done` have moved: an existing row under a new
  // key wins, the old row goes in any case.
  function PartlyRenamed(rows: Rows, done: set<string>, oldPrefix: string, newPrefix: string): Rows
    requires done <= UnderKeys(rows, oldPrefix)
  {
    map n | n in (rows.Keys - done) + NewKeys(done, oldPrefix, newPrefix) ::
      if n in rows && n !in done then rows[n] else rows[OldKey(n, oldPrefix, newPrefix)]
  }

  function Renamed(rows: Rows, oldPrefix: string, newPrefix: string): Rows {
    PartlyRenamed(rows, UnderKeys(rows, oldPrefix), oldPrefix, newPrefix)
  }

  // After the rename a row's value is found under its new key, unless there was
  // a row already, and every other key reads as before.
  lemma RenamedReads(rows: Rows, oldPrefix: string, newPrefix: string, k: string)
    requires k in rows
    requires forall x :: x in UnderKeys(rows, oldPrefix) ==> !Under(NewKey(x, oldPrefix, newPrefix), oldPrefix)
    ensures var after := Renamed(rows, oldPrefix, newPrefix);
            if Under(k, oldPrefix) then
              var newKey := NewKey(k, oldPrefix, newPrefix);
              k !in after && newKey in after && after[newKey] == if newKey in rows then rows[newKey] else rows[k]
            else k in after && after[k] == rows[k]
  {
    if Under(k, oldPrefix) {
      OldOfNew(k, oldPrefix, newPrefix);
      assert k in UnderKeys(rows, oldPrefix);
    }
  }

  // The rename replaces the prefix and keeps what follows it.
  lemma RenamedSuffix(rows: Rows, oldPrefix: string, newPrefix: string, suffix: string)
    requires oldPrefix + "." + suffix in rows
    requires forall x :: x in UnderKeys(rows, oldPrefix) ==> !Under(NewKey(x, oldPrefix, newPrefix), oldPrefix)
    ensures var after, newKey := Renamed(rows, oldPrefix, newPrefix), newPrefix + "." + suffix;
            oldPrefix + "." + suffix !in after && newKey in after &&
            after[newKey] == if newKey in rows then rows[newKey] else rows[oldPrefix + "." + suffix]
  {
    var k := oldPrefix + "." + suffix;
    assert k[|oldPrefix| + 1..] == suffix;
    RenamedReads(rows, oldPrefix, newPrefix, k);
  }

  // It makes up no row.
  lemma RenamedOnly(rows: Rows, oldPrefix: string, newPrefix: string, n: string)
    requires n in Renamed(rows, oldPrefix, newPrefix)
    ensures n in rows || exists suffix :: oldPrefix + "." + suffix in rows && n == newPrefix + "." + suffix
  {
    if n !in rows {
      var k :| k in UnderKeys(rows, oldPrefix) && n == NewKey(k, oldPrefix, newPrefix);
      var suffix := k[|oldPrefix| + 1..];
      assert k == oldPrefix + "." + suffix;
    }
  }

  // ---- repair --------------------------------------------------------------------

  // A dict-valued key with the prefixes its flattened rows may carry.
  datatype Family = Family(key: string, alias: string, api: bool)

  predicate Matches(f: Family, k: string) {
    Under(k, f.key) || Under(k, f.alias)
  }

  function Fragment(f: Family, k: string): string
    requires Matches(f, k)
  {
    if Under(k, f.key) then k[|f.key| + 1..] else k[|f.alias| + 1..]
  }

  // Where a flattened row belongs; None when it cannot be split.
  ghost function PathOf(f: Family, k: string): Option<Path> {
    if !Matches(f, k) then None
    else if f.api then
      var s := SplitOf(API_CONFIG_FIELDS, Fragment(f, k));
      if s.None? then None else Some([s.value.key] + s.value.path)
    else Some(SplitDots(Fragment(f, k)))
  }

  lemma FragmentOf(f: Family, prefix: string, rest: string)
    requires prefix == f.key || (prefix == f.alias && !Under(prefix + "." + rest, f.key))
    ensures Matches(f, prefix + "." + rest) && Fragment(f, prefix + "." + rest) == rest
  {
    assert (prefix + "." + rest)[|prefix| + 1..] == rest;
  }

  // A row flattened from a path leads back to it, under either prefix.
  lemma FlattenedPath(f: Family, prefix: string, path: Path)
    requires prefix == f.key || (prefix == f.alias && !Under(prefix + "." + Join(path), f.key))
    requires !f.api && DotFree(path)
    ensures PathOf(f, prefix + "." + Join(path)) == Some(path)
  {
    FragmentOf(f, prefix, Join(path));
    SplitJoin(path);
  }

  // So does the row of a connection, on the condition under which keys split back.
  lemma FlattenedConnectionPath(f: Family, prefix: string, key: string, path: Path)
    requires var rest := key + "." + Join(path);
             prefix == f.key || (prefix == f.alias && !Under(prefix + "." + rest, f.key))
    requires f.api && DotFree(path) && Join(path) != ""
    requires if IsDigits(First(key)) then '.' !in key else key != "" && MarkedOnce(path)
    ensures PathOf(f, prefix + "." + (key + "." + Join(path))) == Some([key] + path)
  {
    var rest := key + "." + Join(path);
    FragmentOf(f, prefix, rest);
    SplitOfSplits(API_CONFIG_FIELDS, rest);
    SplitUndoesFlattenIff(key, path, SplitOf(API_CONFIG_FIELDS, rest));
  }

  // A row stays when it has no path, or when its connection is not a dict.
  ghost predicate Blocked(f: Family, k: string, fields: Fields) {
    PathOf(f, k).None? ||
    (f.api && PathOf(f, k).value[0] in fields && !fields[PathOf(f, k).value[0]].Dict?)
  }

  // What the rows `ks` add to the dict of a family, and which of them it absorbed.
  ghost function Absorbed(f: Family, rows: Rows, ks: seq<string>, start: Fields): (Fields, seq<string>)
    requires forall k :: k in ks ==> k in rows && Matches(f, k)
  {
    if ks == [] then (start, [])
    else
      var k := ks[|ks| - 1];
      var (fields, orphans) := Absorbed(f, rows, ks[..|ks| - 1], start);
      if Blocked(f, k, fields) then (fields, orphans)
      else (AssignPath(fields, PathOf(f, k).value, rows[k]), orphans + [k])
  }

  // What the query for a family may answer.
  ghost predicate Answers(f: Family, rows: Rows, ks: seq<string>) {
    NoDup(ks) && forall k :: k in ks <==> k in rows && Matches(f, k)
  }

  ghost function FamilyRepaired(f: Family, rows: Rows, ks: seq<string>): (Rows, seq<string>)
    requires forall k :: k in ks ==> k in rows && Matches(f, k)
  {
    var (fields, orphans) := Absorbed(f, rows, ks, FieldsAt(rows, f.key));
    if orphans == [] then (rows, []) else (rows[f.key := Dict(fields)], orphans)
  }

  ghost predicate AllAnswer(fs: seq<Family>, rows: Rows, answers: seq<seq<string>>)
    decreases |fs|
  {
    |answers| == |fs| &&
    (fs != [] ==> Answers(fs[0], rows, answers[0]) &&
                  AllAnswer(fs[1..], FamilyRepaired(fs[0], rows, answers[0]).0, answers[1..]))
  }

  // One family after the other; the absorbed rows are deleted at the end.
  ghost function FamiliesRepaired(fs: seq<Family>, rows: Rows, answers: seq<seq<string>>): (Rows, seq<string>)
    requires AllAnswer(fs, rows, answers)
    decreases |fs|
  {
    if fs == [] then (rows, [])
    else
      var (first, orphans) := FamilyRepaired(fs[0], rows, answers[0]);
      var (last, more) := FamiliesRepaired(fs[1..], first, answers[1..]);
      (last, orphans + more)
  }

  const MODEL_LIST_KEYS: set<string> := {"ui.default_models", "ui.default_pinned_models"}

  // ','.join of the stripped, non-empty items
  function JoinItems(items: seq<string>, strip: string -> string): string {
    if items == [] then ""
    else
      var rest := JoinItems(items[1..], strip);
      var item := strip(items[0]);
      if item == "" then rest else if rest == "" then item else item + "," + rest
  }

  // Empty items leave no trace, and commas stand between the others only.
  lemma {:induction false} JoinAppend(a: seq<string>, b: seq<string>, strip: string -> string)
    ensures var x, y := JoinItems(a, strip), JoinItems(b, strip);
            JoinItems(a + b, strip) == if x == "" then y else if y == "" then x else x + "," + y
  {
    if a == [] {
      assert a + b == b;
    } else {
      assert (a + b)[1..] == a[1..] + b;
      JoinAppend(a[1..], b, strip);
      var x, y := JoinItems(a[1..], strip), JoinItems(b, strip);
      assert strip(a[0]) + "," + (x + "," + y) == strip(a[0]) + "," + x + "," + y;
    }
  }

  lemma JoinOne(item: string, strip: string -> string)
    ensures JoinItems([item], strip) == strip(item) && JoinItems([], strip) == ""
  {
  }

  function ListsJoined(rows: Rows, strip: string -> string): Rows {
    map k | k in rows ::
      if k in MODEL_LIST_KEYS && rows[k].List? then Scalar(JoinItems(rows[k].items, strip)) else rows[k]
  }

  ghost function Repaired(fs: seq<Family>, rows: Rows, answers: seq<seq<string>>, strip: string -> string): Rows
    requires AllAnswer(fs, rows, answers)
  {
    var (after, orphans) := FamiliesRepaired(fs, rows, answers);
    ListsJoined(after - Elements(orphans), strip)
  }

  // ---- settings and reads -----------------------------------------------------------

  datatype Settings = Settings(persistent: bool, oauthPersistent: bool, defaults: Rows)

  predicate Enabled(s: Settings, key: string) {
    s.persistent && !("oauth." <= key && !s.oauthPersistent)
  }

  function DefaultOf(s: Settings, key: string): Option<Json> {
    if key in s.defaults then Some(s.defaults[key]) else None
  }

  function Get(rows: Rows, s: Settings, key: string): Option<Json> {
    if !Enabled(s, key) then DefaultOf(s, key)
    else if key in rows then Some(rows[key])
    else DefaultOf(s, key)
  }

  // A key reads its row when configuration is stored, and that of OAuth settings
  // if they are; in every other case it reads its default.
  lemma GetReads(rows: Rows, s: Settings, key: string)
    ensures Get(rows, s, key) ==
            if key in rows && s.persistent && ("oauth." <= key ==> s.oauthPersistent) then Some(rows[key])
            else if key in s.defaults then Some(s.defaults[key])
            else None
  {
  }

  function GetMany(rows: Rows, s: Settings, keys: set<string>): Rows {
    var disabled := map k | k in keys && !Enabled(s, k) && k in s.defaults :: s.defaults[k];
    var enabled := set k | k in keys && Enabled(s, k);
    if enabled == {} then disabled
    else
      var values := map k | k in rows && k in enabled :: rows[k];
      map k | k in keys && (k in values || k in s.defaults || k in disabled) ::
        if k in values then values[k] else s.defaults[k]
  }

  // Reading many keys at once is reading each of them.
  lemma GetManyAgrees(rows: Rows, s: Settings, keys: set<string>, key: string)
    requires key in keys
    ensures Get(rows, s, key) == if key in GetMany(rows, s, keys) then Some(GetMany(rows, s, keys)[key]) else None
  {
    var enabled := set k | k in keys && Enabled(s, k);
    if enabled == {} {
      assert key !in enabled;
    }
  }

  // The table once the defaults of `done` are in it.
  function PartlySeeded(rows: Rows, done: set<string>, s: Settings): Rows
    requires done <= s.defaults.Keys
  {
    (map k | k in done && Enabled(s, k) :: s.defaults[k]) + rows
  }

  function Seeded(rows: Rows, s: Settings): Rows {
    PartlySeeded(rows, s.defaults.Keys, s)
  }

  // Seeding changes no read: a missing enabled key had its default already.
  lemma SeedingKeepsReads(rows: Rows, s: Settings, key: string)
    ensures Get(Seeded(rows, s), s, key) == Get(rows, s, key)
    ensures key in Seeded(rows, s) <==>
            key in rows ||
            (key in s.defaults && s.persistent && ("oauth." <= key ==> s.oauthPersistent))
    ensures key in rows ==> Seeded(rows, s)[key] == rows[key]
  {
  }

  // ---- the startup pass ---------------------------------------------------------------

  const OLD_PREFIX := "rag.web"
  const NEW_PREFIX := "web"

  ghost predicate PassAnswers(fs: seq<Family>, rows: Rows, s: Settings, answers: seq<seq<string>>) {
    s.persistent ==> AllAnswer(fs, Renamed(rows, OLD_PREFIX, NEW_PREFIX), answers)
  }

  ghost function Startup(
      fs: seq<Family>, rows: Rows, s: Settings, answers: seq<seq<string>>, strip: string -> string): Rows
    requires PassAnswers(fs, rows, s, answers)
  {
    if !s.persistent then rows
    else Seeded(Repaired(fs, Renamed(rows, OLD_PREFIX, NEW_PREFIX), answers, strip), s)
  }

  // The dict keys are distinct and none of them looks like a flattened row.
  ghost predicate ProperFamilies(fs: seq<Family>) {
    && (forall i, j :: 0 <= i < j < |fs| ==> fs[i].key != fs[j].key)
    && (forall f, g :: f in fs && g in fs ==> !Matches(g, f.key))
    && (forall f :: f in fs ==> !Under(f.key, OLD_PREFIX) && f.key !in MODEL_LIST_KEYS)
  }

  // No default looks like a row that the pass itself would rename, absorb or join.
  ghost predicate ProperDefaults(fs: seq<Family>, s: Settings) {
    forall k :: k in s.defaults ==>
      !Under(k, OLD_PREFIX) && (forall f :: f in fs ==> !Matches(f, k)) &&
      !(k in MODEL_LIST_KEYS && s.defaults[k].List?)
  }

  // ---- what is left after a pass ---------------------------------------------------------

  // Every flattened row of the family that is still there is blocked.
  ghost predicate Settled(f: Family, rows: Rows) {
    forall k :: k in rows && Matches(f, k) ==> Blocked(f, k, FieldsAt(rows, f.key))
  }

  // A blocked row stays blocked while other rows are absorbed.
  lemma {:induction false} AbsorbSkipsBlocked(f: Family, rows: Rows, ks: seq<string>, start: Fields)
    requires forall k :: k in ks ==> k in rows && Matches(f, k)
    ensures var (fields, orphans) := Absorbed(f, rows, ks, start);
            && (forall k :: k in orphans ==> k in ks)
            && (forall k :: k in ks && k !in orphans ==> Blocked(f, k, fields))
            && (orphans == [] ==> fields == start)
            && (forall top :: f.api && top in start && !start[top].Dict? ==> top in fields && !fields[top].Dict?)
  {
    if ks == [] {
    } else {
      var n := |ks| - 1;
      AbsorbSkipsBlocked(f, rows, ks[..n], start);
      var (before, orphans) := Absorbed(f, rows, ks[..n], start);
      assert forall k :: k in ks <==> k in ks[..n] || k == ks[n];
      if Blocked(f, ks[n], before) {
        assert Absorbed(f, rows, ks, start) == (before, orphans);
      } else {
        AbsorbOneKeeps(f, ks[n], before, rows[ks[n]]);
        var fields := AssignPath(before, PathOf(f, ks[n]).value, rows[ks[n]]);
        assert Absorbed(f, rows, ks, start) == (fields, orphans + [ks[n]]);
      }
    }
  }

  lemma AbsorbOneKeeps(f: Family, k: string, before: Fields, value: Json)
    requires !Blocked(f, k, before)
    ensures var after := AssignPath(before, PathOf(f, k).value, value);
            && (forall top :: f.api && top in before && !before[top].Dict? ==> top in after && !after[top].Dict?)
            && (forall other :: Blocked(f, other, before) ==> Blocked(f, other, after))
  {
  }

  // With every row blocked nothing is absorbed.
  lemma {:induction false} AllBlockedNothingAbsorbed(f: Family, rows: Rows, ks: seq<string>, start: Fields)
    requires forall k :: k in ks ==> k in rows && Matches(f, k) && Blocked(f, k, start)
    ensures Absorbed(f, rows, ks, start) == (start, [])
  {
    if ks == [] {
    } else {
      AllBlockedNothingAbsorbed(f, rows, ks[..|ks| - 1], start);
    }
  }

  lemma FamilySettles(f: Family, rows: Rows, ks: seq<string>)
    requires Answers(f, rows, ks) && !Matches(f, f.key)
    ensures var (after, orphans) := FamilyRepaired(f, rows, ks);
            && (forall k :: k in after && Matches(f, k) && k !in orphans ==> Blocked(f, k, FieldsAt(after, f.key)))
            && rows.Keys <= after.Keys <= rows.Keys + {f.key}
            && (forall k :: k in rows && k != f.key ==> after[k] == rows[k])
            && (forall k :: k in orphans ==> k in rows && Matches(f, k))
  {
    AbsorbSkipsBlocked(f, rows, ks, FieldsAt(rows, f.key));
  }

  ghost function KeysOf(fs: seq<Family>): set<string> {
    set f | f in fs :: f.key
  }

  // The families do not disturb one another.
  lemma {:induction false} FamiliesSettle(fs: seq<Family>, rows: Rows, answers: seq<seq<string>>)
    requires ProperFamilies(fs) && AllAnswer(fs, rows, answers)
    ensures var (after, orphans) := FamiliesRepaired(fs, rows, answers);
            && rows.Keys <= after.Keys <= rows.Keys + KeysOf(fs)
            && (forall k :: k in rows && k !in KeysOf(fs) ==> after[k] == rows[k])
            && (forall k :: k in orphans ==> exists f :: f in fs && Matches(f, k))
            && (forall f, k :: f in fs && k in after && Matches(f, k) && k !in orphans ==>
                  Blocked(f, k, FieldsAt(after, f.key)))
    decreases |fs|
  {
    if fs == [] {
    } else {
      var (first, orphans) := FamilyRepaired(fs[0], rows, answers[0]);
      FamilySettles(fs[0], rows, answers[0]);
      ProperTail(fs);
      FamiliesSettle(fs[1..], first, answers[1..]);
      FirstStaysSettled(fs, rows, answers);
    }
  }

  lemma ProperTail(fs: seq<Family>)
    requires fs != [] && ProperFamilies(fs)
    ensures ProperFamilies(fs[1..]) && fs[0].key !in KeysOf(fs[1..])
    ensures KeysOf(fs) == {fs[0].key} + KeysOf(fs[1..])
    ensures forall f :: f in fs <==> f == fs[0] || f in fs[1..]
  {
    assert forall f :: f in fs <==> f == fs[0] || f in fs[1..];
  }

  lemma FirstStaysSettled(fs: seq<Family>, rows: Rows, answers: seq<seq<string>>)
    requires fs != [] && ProperFamilies(fs) && AllAnswer(fs, rows, answers)
    requires var (first, orphans) := FamilyRepaired(fs[0], rows, answers[0]);
             var (after, more) := FamiliesRepaired(fs[1..], first, answers[1..]);
             && first.Keys <= after.Keys <= first.Keys + KeysOf(fs[1..])
             && forall k :: k in first && k !in KeysOf(fs[1..]) ==> after[k] == first[k]
    ensures var (first, orphans) := FamilyRepaired(fs[0], rows, answers[0]);
            var (after, more) := FamiliesRepaired(fs[1..], first, answers[1..]);
            forall k :: k in after && Matches(fs[0], k) && k !in orphans ==>
              Blocked(fs[0], k, FieldsAt(after, fs[0].key))
  {
    var f := fs[0];
    FamilySettles(f, rows, answers[0]);
    ProperTail(fs);
    var (first, orphans) := FamilyRepaired(f, rows, answers[0]);
    var (after, more) := FamiliesRepaired(fs[1..], first, answers[1..]);
    assert FieldsAt(after, f.key) == FieldsAt(first, f.key);
    forall k | k in KeysOf(fs[1..]) ensures !Matches(f, k) {}
  }

  // ---- the fixed point ------------------------------------------------------------------

  // What a finished pass leaves behind.
  ghost predicate Clean(fs: seq<Family>, rows: Rows, s: Settings) {
    && (forall k :: k in rows ==> !Under(k, OLD_PREFIX))
    && (forall f :: f in fs ==> Settled(f, rows))
    && (forall k :: k in rows && k in MODEL_LIST_KEYS ==> !rows[k].List?)
    && (forall k :: k in s.defaults && Enabled(s, k) ==> k in rows)
  }

  lemma NewPrefixOutside(rows: Rows)
    ensures forall x :: x in UnderKeys(rows, OLD_PREFIX) ==> !Under(NewKey(x, OLD_PREFIX, NEW_PREFIX), OLD_PREFIX)
  {
    forall k | k in UnderKeys(rows, OLD_PREFIX) ensures !Under(NewKey(k, OLD_PREFIX, NEW_PREFIX), OLD_PREFIX) {
      assert NewKey(k, OLD_PREFIX, NEW_PREFIX)[0] == 'w' && (OLD_PREFIX + ".")[0] == 'r';
    }
  }

  lemma RenamedNotUnder(rows: Rows)
    ensures forall k :: k in Renamed(rows, OLD_PREFIX, NEW_PREFIX) ==> !Under(k, OLD_PREFIX)
  {
    NewPrefixOutside(rows);
  }

  lemma RepairedClean(fs: seq<Family>, rows: Rows, answers: seq<seq<string>>, strip: string -> string)
    requires ProperFamilies(fs) && AllAnswer(fs, rows, answers)
    requires forall k :: k in rows ==> !Under(k, OLD_PREFIX)
    ensures var after := Repaired(fs, rows, answers, strip);
            && (forall k :: k in after ==> !Under(k, OLD_PREFIX))
            && (forall f :: f in fs ==> Settled(f, after))
            && (forall k :: k in after && k in MODEL_LIST_KEYS ==> !after[k].List?)
  {
    FamiliesSettle(fs, rows, answers);
    var (repaired, orphans) := FamiliesRepaired(fs, rows, answers);
    var after := Repaired(fs, rows, answers, strip);
    forall k | k in after ensures !Under(k, OLD_PREFIX) {
      if k in KeysOf(fs) {
        var f :| f in fs && f.key == k;
      }
    }
    forall f | f in fs ensures Settled(f, after) {
      assert f.key !in orphans;
      CleanupSettles(f, repaired, orphans, strip);
    }
  }

  // Once the absorbed rows are deleted a family has only blocked rows left.
  lemma CleanupSettles(f: Family, rows: Rows, orphans: seq<string>, strip: string -> string)
    requires f.key !in orphans && f.key !in MODEL_LIST_KEYS
    requires forall k :: k in rows && Matches(f, k) && k !in orphans ==> Blocked(f, k, FieldsAt(rows, f.key))
    ensures Settled(f, ListsJoined(rows - Elements(orphans), strip))
  {
    var after := ListsJoined(rows - Elements(orphans), strip);
    assert FieldsAt(after, f.key) == FieldsAt(rows, f.key);
  }

  lemma SeededClean(fs: seq<Family>, rows: Rows, s: Settings)
    requires ProperDefaults(fs, s)
    requires forall k :: k in rows ==> !Under(k, OLD_PREFIX)
    requires forall f :: f in fs ==> Settled(f, rows)
    requires forall k :: k in rows && k in MODEL_LIST_KEYS ==> !rows[k].List?
    ensures Clean(fs, Seeded(rows, s), s)
  {
  }

  lemma {:induction false} SettledFamiliesKeep(fs: seq<Family>, rows: Rows, answers: seq<seq<string>>)
    requires AllAnswer(fs, rows, answers) && forall f :: f in fs ==> Settled(f, rows)
    ensures FamiliesRepaired(fs, rows, answers).0 == rows && FamiliesRepaired(fs, rows, answers).1 == []
    decreases |fs|
  {
    if fs == [] {
    } else {
      assert Settled(fs[0], rows);
      AllBlockedNothingAbsorbed(fs[0], rows, answers[0], FieldsAt(rows, fs[0].key));
      assert FamilyRepaired(fs[0], rows, answers[0]) == (rows, []);
      assert forall f :: f in fs[1..] ==> f in fs;
      SettledFamiliesKeep(fs[1..], rows, answers[1..]);
    }
  }

  lemma CleanKeeps(fs: seq<Family>, rows: Rows, s: Settings, answers: seq<seq<string>>, strip: string -> string)
    requires Clean(fs, rows, s) && s.persistent && PassAnswers(fs, rows, s, answers)
    ensures Startup(fs, rows, s, answers, strip) == rows
  {
    NothingRenamed(rows, OLD_PREFIX, NEW_PREFIX);
    SettledFamiliesKeep(fs, rows, answers);
    assert rows - Elements<string>([]) == rows;
    NothingJoined(rows, strip);
    NothingSeeded(rows, s);
  }

  lemma NothingRenamed(rows: Rows, oldPrefix: string, newPrefix: string)
    requires forall k :: k in rows ==> !Under(k, oldPrefix)
    ensures Renamed(rows, oldPrefix, newPrefix) == rows
  {
  }

  lemma NothingJoined(rows: Rows, strip: string -> string)
    requires forall k :: k in rows && k in MODEL_LIST_KEYS ==> !rows[k].List?
    ensures ListsJoined(rows, strip) == rows
  {
  }

  lemma NothingSeeded(rows: Rows, s: Settings)
    requires forall k :: k in s.defaults && Enabled(s, k) ==> k in rows
    ensures Seeded(rows, s) == rows
  {
  }

  lemma PassIsFixedPoint(
      fs: seq<Family>, rows: Rows, s: Settings, answers: seq<seq<string>>, again: seq<seq<string>>,
      strip: string -> string)
    requires ProperFamilies(fs) && ProperDefaults(fs, s)
    requires PassAnswers(fs, rows, s, answers) && PassAnswers(fs, Startup(fs, rows, s, answers, strip), s, again)
    ensures Startup(fs, Startup(fs, rows, s, answers, strip), s, again, strip) == Startup(fs, rows, s, answers, strip)
  {
    if s.persistent {
      var renamed := Renamed(rows, OLD_PREFIX, NEW_PREFIX);
      RenamedNotUnder(rows);
      RepairedClean(fs, renamed, answers, strip);
      SeededClean(fs, Repaired(fs, renamed, answers, strip), s);
      CleanKeeps(fs, Startup(fs, rows, s, answers, strip), s, again, strip);
    }
  }

  // ---- the families of the source ------------------------------------------------------------

  const FAMILIES: seq<Family> := [
    Family("openai.api_configs", "OPENAI_API_CONFIGS", true),
    Family("ollama.api_configs", "OLLAMA_API_CONFIGS", true),
    Family("rag.mineru_params", "MINERU_PARAMS", false),
    Family("rag.docling_params", "DOCLING_PARAMS", false),
    Family("web.search.linkup_search_params", "LINKUP_SEARCH_PARAMS", false),
    Family("image_generation.automatic1111.api_params", "AUTOMATIC1111_PARAMS", false),
    Family("image_generation.openai.params", "IMAGES_OPENAI_API_PARAMS", false),
    Family("audio.tts.openai.params", "AUDIO_TTS_OPENAI_PARAMS", false),
    Family("models.default_metadata", "DEFAULT_MODEL_METADATA", false),
    Family("models.default_params", "DEFAULT_MODEL_PARAMS", false),
    Family("task.model.params", "TASK_MODEL_PARAMS", false),
    Family("ui.default_interface_settings", "DEFAULT_INTERFACE_SETTINGS", false),
    Family("user.permissions", "USER_PERMISSIONS", false)]

  // Enough for `key` not to lie under `prefix`, and easy to see of constants: it
  // is no longer, has no dot where the prefix ends, or has another letter where
  // the names of the table part.  That is at 0, or at 17 for the two names that
  // begin with "image_generation.".
  predicate Differs(key: string, prefix: string) {
    |key| <= |prefix| || key[|prefix|] != '.' ||
    (prefix != "" && key[0] != prefix[0]) || (|prefix| > 17 && key[17] != prefix[17])
  }

  lemma DiffersNotUnder(key: string, prefix: string)
    requires Differs(key, prefix)
    ensures !Under(key, prefix)
  {
  }

  lemma KeysDiffer(f: Family, i: nat)
    requires f in FAMILIES && i < |FAMILIES|
    ensures Differs(f.key, FAMILIES[i].key)
  {
    if i < 5 {
      KeysDifferBelow(f, i);
    } else if i < 9 {
      KeysDifferBetween(f, i);
    } else {
      KeysDifferAbove(f, i);
    }
  }

  lemma KeysDifferBelow(f: Family, i: nat)
    requires f in FAMILIES && i < 5
    ensures Differs(f.key, FAMILIES[i].key)
  {
  }

  lemma KeysDifferBetween(f: Family, i: nat)
    requires f in FAMILIES && 5 <= i < 9
    ensures Differs(f.key, FAMILIES[i].key)
  {
  }

  lemma KeysDifferAbove(f: Family, i: nat)
    requires f in FAMILIES && 9 <= i < |FAMILIES|
    ensures Differs(f.key, FAMILIES[i].key)
  {
  }

  lemma LowerAndUpper(f: Family)
    requires f in FAMILIES
    ensures f.key != "" && f.key[0] >= 'a' && f.alias != "" && f.alias[0] <= 'Z'
  {
  }

  lemma KeysDistinct(i: nat, j: nat)
    requires i < j < |FAMILIES|
    ensures FAMILIES[i].key != FAMILIES[j].key
  {
  }

  lemma KeyOutside(f: Family)
    requires f in FAMILIES
    ensures Differs(f.key, OLD_PREFIX) && f.key !in MODEL_LIST_KEYS
  {
  }

  lemma FamiliesProper()
    ensures ProperFamilies(FAMILIES)
  {
    forall i, j | 0 <= i < j < |FAMILIES| ensures FAMILIES[i].key != FAMILIES[j].key {
      KeysDistinct(i, j);
    }
    forall f, g | f in FAMILIES && g in FAMILIES ensures !Matches(g, f.key) {
      var i :| 0 <= i < |FAMILIES| && FAMILIES[i] == g;
      KeysDiffer(f, i);
      LowerAndUpper(f);
      LowerAndUpper(g);
      DiffersNotUnder(f.key, g.key);
      DiffersNotUnder(f.key, g.alias);
    }
    forall f | f in FAMILIES ensures !Under(f.key, OLD_PREFIX) && f.key !in MODEL_LIST_KEYS {
      KeyOutside(f);
      DiffersNotUnder(f.key, OLD_PREFIX);
    }
  }

  // A second startup pass changes nothing, in whatever order the queries answer,
  // as long as no default looks like a row the pass itself would change.
  lemma StartupFixedPoint(
      rows: Rows, s: Settings, answers: seq<seq<string>>, again: seq<seq<string>>, strip: string -> string)
    requires ProperDefaults(FAMILIES, s)
    requires PassAnswers(FAMILIES, rows, s, answers)
    requires PassAnswers(FAMILIES, Startup(FAMILIES, rows, s, answers, strip), s, again)
    ensures Startup(FAMILIES, Startup(FAMILIES, rows, s, answers, strip), s, again, strip) ==
            Startup(FAMILIES, rows, s, answers, strip)
  {
    FamiliesProper();
    PassIsFixedPoint(FAMILIES, rows, s, answers, again, strip);
  }

  // ---- absorbed values --------------------------------------------------------------------

  // No path of these rows is a prefix of another's.
  ghost predicate PathsApart(f: Family, ks: seq<string>) {
    forall k, l :: k in ks && l in ks && k != l && PathOf(f, k).Some? && PathOf(f, l).Some? ==>
      Apart(PathOf(f, k).value, PathOf(f, l).value)
  }

  // No row absorbed after the i-th was written at, above or below its path.
  ghost predicate LaterApart(f: Family, orphans: seq<string>, i: nat) {
    i < |orphans| && PathOf(f, orphans[i]).Some? &&
    forall j :: i < j < |orphans| && PathOf(f, orphans[j]).Some? ==>
      Apart(PathOf(f, orphans[j]).value, PathOf(f, orphans[i]).value)
  }

  lemma LaterApartShorter(f: Family, earlier: seq<string>, k: string, i: nat)
    requires LaterApart(f, earlier + [k], i) && i < |earlier|
    ensures LaterApart(f, earlier, i)
    ensures PathOf(f, k).Some? ==> Apart(PathOf(f, k).value, PathOf(f, earlier[i]).value)
  {
    var longer := earlier + [k];
    assert longer[i] == earlier[i] && longer[|earlier|] == k;
    forall j | i < j < |earlier| ensures longer[j] == earlier[j] {}
  }

  // Of the rows a family absorbs the later wins where paths meet: a value is found
  // if no later one met its path.
  lemma {:induction false} AbsorbedAt(f: Family, rows: Rows, ks: seq<string>, start: Fields, i: nat)
    requires forall x :: x in ks ==> x in rows && Matches(f, x)
    requires LaterApart(f, Absorbed(f, rows, ks, start).1, i)
    ensures var (fields, orphans) := Absorbed(f, rows, ks, start);
            orphans[i] in ks && Lookup(fields, PathOf(f, orphans[i]).value) == Some(rows[orphans[i]])
  {
    var n := |ks| - 1;
    var (before, earlier) := Absorbed(f, rows, ks[..n], start);
    if Blocked(f, ks[n], before) {
      assert Absorbed(f, rows, ks, start) == (before, earlier);
      AbsorbedAt(f, rows, ks[..n], start, i);
    } else {
      var fields := AssignPath(before, PathOf(f, ks[n]).value, rows[ks[n]]);
      assert Absorbed(f, rows, ks, start) == (fields, earlier + [ks[n]]);
      if i == |earlier| {
        LookupAssigned(before, PathOf(f, ks[n]).value, rows[ks[n]]);
      } else {
        LaterApartShorter(f, earlier, ks[n], i);
        AbsorbedAt(f, rows, ks[..n], start, i);
        LookupElsewhere(before, PathOf(f, ks[n]).value, rows[ks[n]], PathOf(f, earlier[i]).value);
      }
    }
  }

  // The absorbed rows come in the order of the query's answer, each once.
  lemma {:induction false} AbsorbedInOrder(f: Family, rows: Rows, ks: seq<string>, start: Fields)
    requires forall x :: x in ks ==> x in rows && Matches(f, x)
    ensures var orphans := Absorbed(f, rows, ks, start).1;
            orphans == Restrict(ks, Elements(orphans)) || !NoDup(ks)
    ensures forall k :: k in Absorbed(f, rows, ks, start).1 ==> k in ks
  {
    if ks == [] {
    } else {
      var n := |ks| - 1;
      var earlier := Absorbed(f, rows, ks[..n], start).1;
      var orphans := Absorbed(f, rows, ks, start).1;
      AbsorbedInOrder(f, rows, ks[..n], start);
      if NoDup(ks) {
        RestrictAgree(ks[..n], Elements(earlier), Elements(orphans));
      }
    }
  }

  lemma AbsorbedLookups(f: Family, rows: Rows, ks: seq<string>, start: Fields, k: string)
    requires NoDup(ks) && forall x :: x in ks ==> x in rows && Matches(f, x)
    requires k in Absorbed(f, rows, ks, start).1 && PathsApart(f, Absorbed(f, rows, ks, start).1)
    ensures k in ks && PathOf(f, k).Some?
    ensures Lookup(Absorbed(f, rows, ks, start).0, PathOf(f, k).value) == Some(rows[k])
  {
    var orphans := Absorbed(f, rows, ks, start).1;
    AbsorbedInOrder(f, rows, ks, start);
    RestrictNoDup(ks, Elements(orphans));
    AbsorbedPaths(f, rows, ks, start);
    var i :| 0 <= i < |orphans| && orphans[i] == k;
    AbsorbedAt(f, rows, ks, start, i);
  }

  lemma {:induction false} AbsorbedPaths(f: Family, rows: Rows, ks: seq<string>, start: Fields)
    requires forall x :: x in ks ==> x in rows && Matches(f, x)
    ensures forall k :: k in Absorbed(f, rows, ks, start).1 ==> PathOf(f, k).Some?
  {
    if ks == [] {
    } else {
      AbsorbedPaths(f, rows, ks[..|ks| - 1], start);
    }
  }

  // After the repair each absorbed row's value is found at its path in the dict
  // of its family, in whatever order the query answered, provided no path is a
  // prefix of another.
  lemma AbsorbedFound(f: Family, rows: Rows, ks: seq<string>, k: string)
    requires Answers(f, rows, ks) && k in FamilyRepaired(f, rows, ks).1
    requires PathsApart(f, FamilyRepaired(f, rows, ks).1)
    ensures var after := FamilyRepaired(f, rows, ks).0;
            k in rows && PathOf(f, k).Some? && f.key in after && after[f.key].Dict? &&
            Lookup(after[f.key].fields, PathOf(f, k).value) == Some(rows[k])
  {
    AbsorbedLookups(f, rows, ks, FieldsAt(rows, f.key), k);
  }

  // The path is apart from those of all these rows.
  ghost predicate AllApart(f: Family, ks: seq<string>, p: Path) {
    forall k :: k in ks && PathOf(f, k).Some? ==> Apart(PathOf(f, k).value, p)
  }

  // Values nested at paths apart from every absorbed one are kept.
  lemma {:induction false} AbsorbingKeepsApart(f: Family, rows: Rows, ks: seq<string>, start: Fields, p: Path)
    requires forall x :: x in ks ==> x in rows && Matches(f, x)
    requires AllApart(f, Absorbed(f, rows, ks, start).1, p)
    ensures Lookup(Absorbed(f, rows, ks, start).0, p) == Lookup(start, p)
  {
    if ks == [] {
    } else {
      var n := |ks| - 1;
      var (before, orphans) := Absorbed(f, rows, ks[..n], start);
      AbsorbingKeepsApart(f, rows, ks[..n], start, p);
      if !Blocked(f, ks[n], before) {
        assert ks[n] in Absorbed(f, rows, ks, start).1;
        LookupElsewhere(before, PathOf(f, ks[n]).value, rows[ks[n]], p);
      }
    }
  }

  // The rows at the i-th family's turn in a pass over all of them.
  ghost function RowsBefore(fs: seq<Family>, rows: Rows, answers: seq<seq<string>>, i: nat): (r: Rows)
    requires AllAnswer(fs, rows, answers) && i < |fs|
    ensures Answers(fs[i], r, answers[i])
    decreases i
  {
    if i == 0 then rows
    else RowsBefore(fs[1..], FamilyRepaired(fs[0], rows, answers[0]).0, answers[1..], i - 1)
  }

  // The rows it absorbs.
  ghost function AbsorbedBy(fs: seq<Family>, rows: Rows, answers: seq<seq<string>>, i: nat): seq<string>
    requires AllAnswer(fs, rows, answers) && i < |fs|
  {
    FamilyRepaired(fs[i], RowsBefore(fs, rows, answers, i), answers[i]).1
  }

  // A key reads the same in both tables.
  ghost predicate SameAt(a: Rows, b: Rows, key: string) {
    (key in a <==> key in b) && (key in a ==> a[key] == b[key])
  }

  // The families behind the first leave its dict alone.
  lemma FirstDictStays(fs: seq<Family>, rows: Rows, answers: seq<seq<string>>)
    requires fs != [] && ProperFamilies(fs) && AllAnswer(fs, rows, answers)
    ensures var key, first := fs[0].key, FamilyRepaired(fs[0], rows, answers[0]).0;
            var after := FamiliesRepaired(fs, rows, answers).0;
            SameAt(after, first, key)
  {
    ProperTail(fs);
    FamiliesSettle(fs[1..], FamilyRepaired(fs[0], rows, answers[0]).0, answers[1..]);
  }

  // The dict and the flattened rows of one family.
  ghost predicate SameFor(f: Family, before: Rows, rows: Rows) {
    SameAt(before, rows, f.key) &&
    forall k :: k in before && Matches(f, k) ==> k in rows && before[k] == rows[k]
  }

  // The first family leaves those of the others alone.
  lemma FirstLeavesOthers(fs: seq<Family>, rows: Rows, answers: seq<seq<string>>, i: nat)
    requires 0 < i < |fs| && ProperFamilies(fs) && AllAnswer(fs, rows, answers)
    ensures SameFor(fs[i], FamilyRepaired(fs[0], rows, answers[0]).0, rows)
  {
    assert fs[0] in fs && fs[i] in fs;
    FamilySettles(fs[0], rows, answers[0]);
  }

  lemma {:induction false} EarlierLeaveAlone(fs: seq<Family>, rows: Rows, answers: seq<seq<string>>, i: nat)
    requires ProperFamilies(fs) && AllAnswer(fs, rows, answers) && i < |fs|
    ensures SameFor(fs[i], RowsBefore(fs, rows, answers, i), rows)
    decreases i
  {
    if i == 0 {
    } else {
      ProperTail(fs);
      FirstLeavesOthers(fs, rows, answers, i);
      EarlierLeaveAlone(fs[1..], FamilyRepaired(fs[0], rows, answers[0]).0, answers[1..], i - 1);
    }
  }

  // The later families keep what the i-th one made.
  lemma {:induction false} LaterKeep(fs: seq<Family>, rows: Rows, answers: seq<seq<string>>, i: nat)
    requires ProperFamilies(fs) && AllAnswer(fs, rows, answers) && i < |fs|
    ensures var key, (after, orphans) := fs[i].key, FamiliesRepaired(fs, rows, answers);
            var (turn, absorbed) := FamilyRepaired(fs[i], RowsBefore(fs, rows, answers, i), answers[i]);
            SameAt(after, turn, key) &&
            forall k :: k in absorbed ==> k in orphans
    decreases i
  {
    if i == 0 {
      FirstDictStays(fs, rows, answers);
    } else {
      ProperTail(fs);
      LaterKeep(fs[1..], FamilyRepaired(fs[0], rows, answers[0]).0, answers[1..], i - 1);
    }
  }

  lemma FoundInPass(fs: seq<Family>, rows: Rows, answers: seq<seq<string>>, i: nat, k: string)
    requires ProperFamilies(fs) && AllAnswer(fs, rows, answers) && i < |fs|
    requires k in AbsorbedBy(fs, rows, answers, i) && PathsApart(fs[i], AbsorbedBy(fs, rows, answers, i))
    ensures var (after, orphans) := FamiliesRepaired(fs, rows, answers);
            k in orphans && k in rows && Matches(fs[i], k) && PathOf(fs[i], k).Some? && fs[i].key in after &&
            Lookup(FieldsAt(after, fs[i].key), PathOf(fs[i], k).value) == Some(rows[k])
  {
    var before := RowsBefore(fs, rows, answers, i);
    EarlierLeaveAlone(fs, rows, answers, i);
    AbsorbedFound(fs[i], before, answers[i], k);
    assert fs[i] in fs;
    FamilySettles(fs[i], before, answers[i]);
    LaterKeep(fs, rows, answers, i);
  }

  lemma KeptInPass(fs: seq<Family>, rows: Rows, answers: seq<seq<string>>, i: nat, p: Path)
    requires ProperFamilies(fs) && AllAnswer(fs, rows, answers) && i < |fs|
    requires AllApart(fs[i], AbsorbedBy(fs, rows, answers, i), p)
    ensures Lookup(FieldsAt(FamiliesRepaired(fs, rows, answers).0, fs[i].key), p) ==
            Lookup(FieldsAt(rows, fs[i].key), p)
  {
    var before := RowsBefore(fs, rows, answers, i);
    EarlierLeaveAlone(fs, rows, answers, i);
    AbsorbingKeepsApart(fs[i], before, answers[i], FieldsAt(before, fs[i].key), p);
    LaterKeep(fs, rows, answers, i);
  }

  // Deleting, joining and seeding leave the dicts of the families alone.
  lemma DictSurvives(
      fs: seq<Family>, rows: Rows, s: Settings, answers: seq<seq<string>>, strip: string -> string, f: Family)
    requires ProperFamilies(fs) && AllAnswer(fs, rows, answers) && f in fs
    requires f.key in FamiliesRepaired(fs, rows, answers).0
    ensures FieldsAt(Seeded(Repaired(fs, rows, answers, strip), s), f.key) ==
            FieldsAt(FamiliesRepaired(fs, rows, answers).0, f.key)
  {
    FamiliesSettle(fs, rows, answers);
  }

  lemma AbsorbedRowGone(
      fs: seq<Family>, rows: Rows, s: Settings, answers: seq<seq<string>>, strip: string -> string,
      f: Family, k: string)
    requires AllAnswer(fs, rows, answers) && ProperDefaults(fs, s) && f in fs && Matches(f, k)
    requires k in FamiliesRepaired(fs, rows, answers).1
    ensures k !in Seeded(Repaired(fs, rows, answers, strip), s)
  {
  }

  lemma RepairedKeepsRow(fs: seq<Family>, rows: Rows, answers: seq<seq<string>>, strip: string -> string, key: string)
    requires ProperFamilies(fs) && AllAnswer(fs, rows, answers)
    requires key in rows && key !in KeysOf(fs) && key !in FamiliesRepaired(fs, rows, answers).1
    ensures var after := Repaired(fs, rows, answers, strip);
            key in after &&
            after[key] == if rows[key].List? && key in {"ui.default_models", "ui.default_pinned_models"}
                          then Scalar(JoinItems(rows[key].items, strip)) else rows[key]
  {
    FamiliesSettle(fs, rows, answers);
  }

  // A row that is neither renamed nor absorbed nor a family's dict keeps its value,
  // except that the lists of models become joined texts.  Without stored
  // configuration the pass does nothing.
  lemma StartupKeepsRow(
      fs: seq<Family>, rows: Rows, s: Settings, answers: seq<seq<string>>, strip: string -> string, key: string)
    requires ProperFamilies(fs) && PassAnswers(fs, rows, s, answers)
    requires key in rows && !Under(key, OLD_PREFIX) && key !in KeysOf(fs)
    requires s.persistent ==> key !in FamiliesRepaired(fs, Renamed(rows, OLD_PREFIX, NEW_PREFIX), answers).1
    ensures var after := Startup(fs, rows, s, answers, strip);
            && (!s.persistent ==> after == rows)
            && key in after
            && after[key] ==
               if s.persistent && rows[key].List? && key in {"ui.default_models", "ui.default_pinned_models"}
               then Scalar(JoinItems(rows[key].items, strip)) else rows[key]
  {
    if s.persistent {
      RenamedKeeps(rows, key);
      var renamed := Renamed(rows, OLD_PREFIX, NEW_PREFIX);
      RepairedKeepsRow(fs, renamed, answers, strip, key);
    }
  }

  lemma RenamedKeeps(rows: Rows, key: string)
    requires key in rows && !Under(key, OLD_PREFIX)
    ensures var renamed := Renamed(rows, OLD_PREFIX, NEW_PREFIX); key in renamed && renamed[key] == rows[key]
  {
    NewPrefixOutside(rows);
    RenamedReads(rows, OLD_PREFIX, NEW_PREFIX, key);
  }

  // Every row the pass adds is a renamed one, a family's dict or a default.
  lemma StartupAddsOnly(
      fs: seq<Family>, rows: Rows, s: Settings, answers: seq<seq<string>>, strip: string -> string, key: string)
    requires ProperFamilies(fs) && PassAnswers(fs, rows, s, answers)
    requires key in Startup(fs, rows, s, answers, strip) && key !in rows && key !in KeysOf(fs)
    ensures (key in s.defaults && Startup(fs, rows, s, answers, strip)[key] == s.defaults[key]) ||
            exists suffix :: "rag.web." + suffix in rows && key == "web." + suffix
  {
    if s.persistent {
      var renamed := Renamed(rows, OLD_PREFIX, NEW_PREFIX);
      RepairedAddsOnly(fs, renamed, answers, strip);
      if key in renamed {
        RenamedFrom(rows, key);
      }
    }
  }

  lemma RenamedFrom(rows: Rows, key: string)
    requires key in Renamed(rows, OLD_PREFIX, NEW_PREFIX) && key !in rows
    ensures exists suffix :: "rag.web." + suffix in rows && key == "web." + suffix
  {
    RenamedOnly(rows, OLD_PREFIX, NEW_PREFIX, key);
    var suffix :| OLD_PREFIX + "." + suffix in rows && key == NEW_PREFIX + "." + suffix;
    assert OLD_PREFIX + "." == "rag.web." && NEW_PREFIX + "." == "web.";
    assert "rag.web." + suffix in rows && key == "web." + suffix;
  }

  lemma RepairedAddsOnly(fs: seq<Family>, rows: Rows, answers: seq<seq<string>>, strip: string -> string)
    requires ProperFamilies(fs) && AllAnswer(fs, rows, answers)
    ensures Repaired(fs, rows, answers, strip).Keys <= rows.Keys + KeysOf(fs)
  {
    FamiliesSettle(fs, rows, answers);
  }

  // After a whole startup pass the value of every row a family absorbed, as the
  // renaming left it, is found at its path, provided no path is a prefix of
  // another; the row is gone.
  lemma StartupFindsAbsorbed(
      fs: seq<Family>, rows: Rows, s: Settings, answers: seq<seq<string>>, strip: string -> string, i: nat, k: string)
    requires ProperFamilies(fs) && ProperDefaults(fs, s) && s.persistent && PassAnswers(fs, rows, s, answers)
    requires var renamed := Renamed(rows, OLD_PREFIX, NEW_PREFIX);
             && i < |fs| && k in AbsorbedBy(fs, renamed, answers, i)
             && PathsApart(fs[i], AbsorbedBy(fs, renamed, answers, i))
    ensures var renamed, after := Renamed(rows, OLD_PREFIX, NEW_PREFIX), Startup(fs, rows, s, answers, strip);
            k in renamed && k !in after && PathOf(fs[i], k).Some? &&
            Lookup(FieldsAt(after, fs[i].key), PathOf(fs[i], k).value) == Some(renamed[k])
  {
    var renamed := Renamed(rows, OLD_PREFIX, NEW_PREFIX);
    FoundInPass(fs, renamed, answers, i, k);
    DictSurvives(fs, renamed, s, answers, strip, fs[i]);
    AbsorbedRowGone(fs, renamed, s, answers, strip, fs[i], k);
  }

  // A family that absorbs nothing keeps its row, dict or not, and gets none but a
  // default.
  lemma StartupKeepsDict(
      fs: seq<Family>, rows: Rows, s: Settings, answers: seq<seq<string>>, strip: string -> string, i: nat)
    requires ProperFamilies(fs) && s.persistent && PassAnswers(fs, rows, s, answers)
    requires i < |fs| && AbsorbedBy(fs, Renamed(rows, OLD_PREFIX, NEW_PREFIX), answers, i) == []
    ensures var renamed, after := Renamed(rows, OLD_PREFIX, NEW_PREFIX), Startup(fs, rows, s, answers, strip);
            if fs[i].key in renamed then SameAt(after, renamed, fs[i].key)
            else fs[i].key in after ==> fs[i].key in s.defaults && after[fs[i].key] == s.defaults[fs[i].key]
  {
    var renamed := Renamed(rows, OLD_PREFIX, NEW_PREFIX);
    EarlierLeaveAlone(fs, renamed, answers, i);
    LaterKeep(fs, renamed, answers, i);
    RepairedAt(fs, renamed, answers, strip, fs[i]);
  }

  // Deleting and joining leave the row of a family's dict alone.
  lemma RepairedAt(fs: seq<Family>, rows: Rows, answers: seq<seq<string>>, strip: string -> string, f: Family)
    requires ProperFamilies(fs) && AllAnswer(fs, rows, answers) && f in fs
    ensures SameAt(Repaired(fs, rows, answers, strip), FamiliesRepaired(fs, rows, answers).0, f.key)
  {
    FamiliesSettle(fs, rows, answers);
  }

  // A value nested in the dict of a family at a path apart from every absorbed
  // one survives the pass.
  lemma StartupKeepsNested(
      fs: seq<Family>, rows: Rows, s: Settings, answers: seq<seq<string>>, strip: string -> string, i: nat, p: Path)
    requires ProperFamilies(fs) && s.persistent && PassAnswers(fs, rows, s, answers)
    requires var renamed := Renamed(rows, OLD_PREFIX, NEW_PREFIX);
             && i < |fs| && Lookup(FieldsAt(renamed, fs[i].key), p).Some?
             && AllApart(fs[i], AbsorbedBy(fs, renamed, answers, i), p)
    ensures Lookup(FieldsAt(Startup(fs, rows, s, answers, strip), fs[i].key), p) ==
            Lookup(FieldsAt(Renamed(rows, OLD_PREFIX, NEW_PREFIX), fs[i].key), p)
  {
    var renamed := Renamed(rows, OLD_PREFIX, NEW_PREFIX);
    KeptInPass(fs, renamed, answers, i, p);
    FamiliesSettle(fs, renamed, answers);
    DictSurvives(fs, renamed, s, answers, strip, fs[i]);
  }
}
