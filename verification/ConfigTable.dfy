// The startup steps on the configuration table as the loops of
// backend/open_webui/models/config.py.
module ConfigTables {
  import opened Basics
  import opened ConfigPaths
  import opened ConfigStore

  class ConfigTable {
    var rows: Rows

    constructor (rows: Rows)
      ensures this.rows == rows
    {
      this.rows := rows;
    }

    // `ks` is the answer of the query for keys under the old prefix.
    method RenamePrefix(oldPrefix: string, newPrefix: string, ks: seq<string>)
      requires NoDup(ks) && Elements(ks) == UnderKeys(rows, oldPrefix)
      requires forall k :: k in UnderKeys(rows, oldPrefix) ==> !Under(NewKey(k, oldPrefix, newPrefix), oldPrefix)
      modifies this
      ensures rows == Renamed(old(rows), oldPrefix, newPrefix)
    {
      ghost var start, done := rows, {};
      var i := 0;
      NothingMoved(start, oldPrefix, newPrefix);
      while i < |ks|
        invariant 0 <= i <= |ks|
        invariant done <= UnderKeys(start, oldPrefix)
        invariant forall j :: 0 <= j < |ks| ==> (ks[j] in done <==> j < i)
        invariant rows == PartlyRenamed(start, done, oldPrefix, newPrefix)
      {
        assert ks[i] in Elements(ks) && done + {ks[i]} <= UnderKeys(start, oldPrefix);
        MoveNext(start, done, ks[i], oldPrefix, newPrefix);
        done := done + {ks[i]};
        i := i + 1;
      }
      assert forall k :: k in Elements(ks) ==> k in done;
    }

    method MoveNext(ghost start: Rows, ghost done: set<string>, k: string, oldPrefix: string, newPrefix: string)
      requires k !in done && done + {k} <= UnderKeys(start, oldPrefix)
      requires forall x :: x in UnderKeys(start, oldPrefix) ==> !Under(NewKey(x, oldPrefix, newPrefix), oldPrefix)
      requires rows == PartlyRenamed(start, done, oldPrefix, newPrefix)
      modifies this
      ensures rows == PartlyRenamed(start, done + {k}, oldPrefix, newPrefix)
    {
      RenameStep(start, done, k, oldPrefix, newPrefix);
      MoveRow(k, NewKey(k, oldPrefix, newPrefix));
    }

    method MoveRow(k: string, newKey: string)
      requires k in rows
      modifies this
      ensures rows == (if newKey in old(rows) then old(rows) else old(rows)[newKey := old(rows)[k]]) - {k}
    {
      if newKey !in rows {
        rows := rows[newKey := rows[k]];
      }
      rows := rows - {k};
    }

    method RepairConfigRows(fs: seq<Family>, answers: seq<seq<string>>, strip: string -> string)
      requires AllAnswer(fs, rows, answers)
      modifies this
      ensures rows == Repaired(fs, old(rows), answers, strip)
    {
      var orphans := [];
      var i := 0;
      assert fs[i..] == fs && answers[i..] == answers;
      assert [] + FamiliesRepaired(fs, rows, answers).1 == FamiliesRepaired(fs, rows, answers).1;
      while i < |fs|
        invariant 0 <= i <= |fs| && |answers| == |fs|
        invariant AllAnswer(fs[i..], rows, answers[i..])
        invariant var (last, more) := FamiliesRepaired(fs[i..], rows, answers[i..]);
                  FamiliesRepaired(fs, old(rows), answers) == (last, orphans + more)
      {
        FamilyStep(fs, rows, answers, i, orphans);
        var absorbed := RepairFamily(fs[i], answers[i]);
        orphans := orphans + absorbed;
        i := i + 1;
      }
      assert orphans + [] == orphans;
      rows := rows - Elements(orphans);
      rows := ListsJoined(rows, strip);
    }

    method RepairFamily(f: Family, ks: seq<string>) returns (orphans: seq<string>)
      requires Answers(f, rows, ks)
      modifies this
      ensures (rows, orphans) == FamilyRepaired(f, old(rows), ks)
    {
      var repaired := FieldsAt(rows, f.key);
      orphans := [];
      var i := 0;
      while i < |ks|
        invariant 0 <= i <= |ks| && rows == old(rows)
        invariant forall k :: k in ks[..i] ==> k in rows && Matches(f, k)
        invariant (repaired, orphans) == Absorbed(f, rows, ks[..i], FieldsAt(rows, f.key))
      {
        var k := ks[i];
        assert ks[..i + 1][..i] == ks[..i];
        assert k in ks;
        var path := RowPath(f, k);
        if path.Some? && !(f.api && path.value[0] in repaired && !repaired[path.value[0]].Dict?) {
          repaired := AssignPath(repaired, path.value, rows[k]);
          orphans := orphans + [k];
        }
        i := i + 1;
      }
      assert ks[..i] == ks;
      if orphans != [] {
        rows := rows[f.key := Dict(repaired)];
      }
    }

    // The order of the defaults does not matter.
    method SeedDefaults(s: Settings, ks: seq<string>)
      requires forall k :: k in ks <==> k in s.defaults
      modifies this
      ensures rows == Seeded(old(rows), s)
    {
      ghost var start, done := rows, {};
      var i := 0;
      assert PartlySeeded(start, {}, s) == start;
      while i < |ks|
        invariant 0 <= i <= |ks|
        invariant done <= s.defaults.Keys
        invariant forall j :: 0 <= j < i ==> ks[j] in done
        invariant rows == PartlySeeded(start, done, s)
      {
        assert ks[i] in ks;
        SeedStep(start, done, ks[i], s);
        if Enabled(s, ks[i]) && ks[i] !in rows {
          rows := rows[ks[i] := s.defaults[ks[i]]];
        }
        done := done + {ks[i]};
        i := i + 1;
      }
      assert forall k :: k in ks ==> k in done;
      assert done == s.defaults.Keys;
    }
  }

  method RowPath(f: Family, k: string) returns (path: Option<Path>)
    requires Matches(f, k)
    ensures path == PathOf(f, k)
  {
    var fragment := Fragment(f, k);
    if !f.api {
      return Some(SplitDots(fragment));
    }
    var s := SplitApiConfigFragment(API_CONFIG_FIELDS, fragment);
    SplitOfSplits(API_CONFIG_FIELDS, fragment);
    SplitsUnique(API_CONFIG_FIELDS, fragment, s, SplitOf(API_CONFIG_FIELDS, fragment));
    if s.None? {
      return None;
    }
    return Some([s.value.key] + s.value.path);
  }

  // Repairing one more family, as the loop does it.
  lemma FamilyStep(fs: seq<Family>, rows: Rows, answers: seq<seq<string>>, i: nat, orphans: seq<string>)
    requires i < |fs| == |answers| && AllAnswer(fs[i..], rows, answers[i..])
    ensures Answers(fs[i], rows, answers[i])
    ensures var (next, absorbed) := FamilyRepaired(fs[i], rows, answers[i]);
            && AllAnswer(fs[i + 1..], next, answers[i + 1..])
            && var (last, more) := FamiliesRepaired(fs[i..], rows, answers[i..]);
               var (last', more') := FamiliesRepaired(fs[i + 1..], next, answers[i + 1..]);
               last == last' && orphans + more == orphans + absorbed + more'
  {
    assert fs[i..][1..] == fs[i + 1..] && answers[i..][1..] == answers[i + 1..];
    assert fs[i..][0] == fs[i] && answers[i..][0] == answers[i];
    var (next, absorbed) := FamilyRepaired(fs[i], rows, answers[i]);
    var more := FamiliesRepaired(fs[i + 1..], next, answers[i + 1..]).1;
    assert orphans + (absorbed + more) == orphans + absorbed + more;
  }

  lemma SeedStep(rows: Rows, done: set<string>, k: string, s: Settings)
    requires done <= s.defaults.Keys && k in s.defaults
    ensures var before := PartlySeeded(rows, done, s);
            PartlySeeded(rows, done + {k}, s) ==
            if Enabled(s, k) && k !in before then before[k := s.defaults[k]] else before
  {
  }

  lemma NothingMoved(rows: Rows, oldPrefix: string, newPrefix: string)
    ensures PartlyRenamed(rows, {}, oldPrefix, newPrefix) == rows
  {
  }

  // Moving one more row, as the loop does it.
  lemma RenameStep(rows: Rows, done: set<string>, k: string, oldPrefix: string, newPrefix: string)
    requires k !in done && done + {k} <= UnderKeys(rows, oldPrefix)
    requires forall x :: x in UnderKeys(rows, oldPrefix) ==> !Under(NewKey(x, oldPrefix, newPrefix), oldPrefix)
    ensures var before := PartlyRenamed(rows, done, oldPrefix, newPrefix);
            var newKey := NewKey(k, oldPrefix, newPrefix);
            k in before && before[k] == rows[k] &&
            PartlyRenamed(rows, done + {k}, oldPrefix, newPrefix) ==
            (if newKey in before then before else before[newKey := rows[k]]) - {k}
  {
    NewKeyStep(rows, done, k, oldPrefix, newPrefix);
    var before := PartlyRenamed(rows, done, oldPrefix, newPrefix);
    var after := PartlyRenamed(rows, done + {k}, oldPrefix, newPrefix);
    var newKey := NewKey(k, oldPrefix, newPrefix);
    assert after.Keys == before.Keys + {newKey} - {k};
    OthersKeep(rows, done, k, oldPrefix, newPrefix);
    assert newKey in before <==> newKey in rows;
  }

  lemma OthersKeep(rows: Rows, done: set<string>, k: string, oldPrefix: string, newPrefix: string)
    requires k !in done && done + {k} <= UnderKeys(rows, oldPrefix)
    ensures var before := PartlyRenamed(rows, done, oldPrefix, newPrefix);
            var after := PartlyRenamed(rows, done + {k}, oldPrefix, newPrefix);
            forall n :: n in after && n in before && n != k ==> after[n] == before[n]
  {
  }

  lemma NewKeyStep(rows: Rows, done: set<string>, k: string, oldPrefix: string, newPrefix: string)
    requires k !in done && done + {k} <= UnderKeys(rows, oldPrefix)
    requires forall x :: x in UnderKeys(rows, oldPrefix) ==> !Under(NewKey(x, oldPrefix, newPrefix), oldPrefix)
    ensures var newKey := NewKey(k, oldPrefix, newPrefix);
            && NewKeys(done + {k}, oldPrefix, newPrefix) == NewKeys(done, oldPrefix, newPrefix) + {newKey}
            && newKey !in NewKeys(done, oldPrefix, newPrefix) && !Under(newKey, oldPrefix)
            && |newPrefix| < |newKey| && OldKey(newKey, oldPrefix, newPrefix) == k
            && forall n :: n in NewKeys(done + {k}, oldPrefix, newPrefix) ==> !Under(n, oldPrefix)
  {
    var newKey := NewKey(k, oldPrefix, newPrefix);
    OldOfNew(k, oldPrefix, newPrefix);
    forall x | x in done ensures NewKey(x, oldPrefix, newPrefix) != newKey {
      OldOfNew(x, oldPrefix, newPrefix);
    }
  }
}
