// Keys and nested values of the configuration store
// (backend/open_webui/models/config.py): splitting flattened keys and assigning
// values at paths.
module ConfigPaths {
  import opened Basics

  datatype Json = Scalar(text: string) | List(items: seq<string>) | Dict(fields: Fields)

  type Fields = map<string, Json>

  type Path = p: seq<string> | p != [] witness [""]

  // ---- assignment at a path ------------------------------------------------------

  function FieldsAt(target: Fields, part: string): Fields {
    if part in target && target[part].Dict? then target[part].fields else map[]
  }

  // A value that is not a dict is replaced on the way down.
  function AssignPath(target: Fields, path: Path, value: Json): Fields
    decreases |path|
  {
    if |path| == 1 then target[path[0] := value]
    else target[path[0] := Dict(AssignPath(FieldsAt(target, path[0]), path[1..], value))]
  }

  function Lookup(target: Fields, path: Path): Option<Json>
    decreases |path|
  {
    if path[0] !in target then None
    else if |path| == 1 then Some(target[path[0]])
    else if target[path[0]].Dict? then Lookup(target[path[0]].fields, path[1..])
    else None
  }

  lemma {:induction false} LookupAssigned(target: Fields, path: Path, value: Json)
    ensures Lookup(AssignPath(target, path, value), path) == Some(value)
    decreases |path|
  {
    if |path| == 1 {
    } else {
      LookupAssigned(FieldsAt(target, path[0]), path[1..], value);
    }
  }

  ghost predicate Apart(p: Path, q: Path) {
    !(p <= q) && !(q <= p)
  }

  lemma {:induction false} LookupElsewhere(target: Fields, path: Path, value: Json, other: Path)
    requires Apart(path, other)
    ensures Lookup(AssignPath(target, path, value), other) == Lookup(target, other)
    decreases |path|
  {
    if path[0] == other[0] {
      assert |path| > 1 && |other| > 1;
      assert path == [path[0]] + path[1..] && other == [other[0]] + other[1..];
      LookupElsewhere(FieldsAt(target, path[0]), path[1..], value, other[1..]);
    }
  }

  // ---- dotted keys -------------------------------------------------------------------

  function Join(path: Path): string
    decreases |path|
  {
    if |path| == 1 then path[0] else path[0] + "." + Join(path[1..])
  }

  // str.split('.')
  function SplitDots(s: string): (r: Path)
    ensures '.' in s <==> |r| > 1
  {
    if s == [] then [""]
    else
      var rest := SplitDots(s[1..]);
      if s[0] == '.' then [""] + rest else [[s[0]] + rest[0]] + rest[1..]
  }

  lemma {:induction false} SplitDotFree(s: string)
    requires '.' !in s
    ensures SplitDots(s) == [s]
  {
    if s == [] {
    } else {
      SplitDotFree(s[1..]);
      assert [s[0]] + s[1..] == s;
    }
  }

  lemma {:induction false} SplitAtDot(a: string, b: string)
    requires '.' !in a
    ensures SplitDots(a + "." + b) == [a] + SplitDots(b)
  {
    var s := a + "." + b;
    if a == [] {
      assert s[1..] == b;
    } else {
      SplitAtDot(a[1..], b);
      assert s[1..] == a[1..] + "." + b;
      assert [a[0]] + a[1..] == a;
    }
  }

  lemma {:induction false} SplitJoin(path: Path)
    requires forall i :: 0 <= i < |path| ==> '.' !in path[i]
    ensures SplitDots(Join(path)) == path
    decreases |path|
  {
    if |path| == 1 {
      SplitDotFree(path[0]);
    } else {
      SplitJoin(path[1..]);
      SplitAtDot(path[0], Join(path[1..]));
    }
  }

  // ---- flattened connection settings ------------------------------------------------

  const API_CONFIG_FIELDS: seq<string> := [
    "enable", "key", "prefix_id", "tags", "model_ids", "connection_type", "provider", "auth_type", "headers",
    "azure", "api_type", "api_version", "extra_params", "passthrough_params"]

  predicate IsDigits(s: string) {
    s != "" && forall i :: 0 <= i < |s| ==> '0' <= s[i] <= '9'
  }

  lemma DigitsAre(s: string)
    ensures IsDigits(s) <==>
            s != "" && forall c :: c in s ==> c in {'0', '1', '2', '3', '4', '5', '6', '7', '8', '9'}
  {
    assert IsDigits(s) <==> s != "" && forall c :: c in s ==> '0' <= c <= '9' by {
      forall i | 0 <= i < |s| ensures s[i] in s {}
    }
    forall c | c in s ensures '0' <= c <= '9' <==> c in {'0', '1', '2', '3', '4', '5', '6', '7', '8', '9'} {
      assert '0' <= c <= '9' ==> 48 <= c as int <= 57;
    }
  }

  // The text before the first dot and, if there is one, the text after it.
  function First(s: string): string {
    if s == [] || s[0] == '.' then [] else [s[0]] + First(s[1..])
  }

  function Rest(s: string): string {
    if s == [] then [] else if s[0] == '.' then s[1..] else Rest(s[1..])
  }

  // str.rfind; -1 when absent.
  function RFind(s: string, marker: string): (r: int)
    ensures -1 <= r <= |s|
    ensures r >= 0 ==> marker <= s[r..]
    ensures forall i :: r < i <= |s| ==> !(marker <= s[i..])
  {
    RFindFrom(s, marker, |s|)
  }

  function RFindFrom(s: string, marker: string, i: nat): (r: int)
    requires i <= |s| && forall j :: i < j <= |s| ==> !(marker <= s[j..])
    ensures -1 <= r <= |s|
    ensures r >= 0 ==> marker <= s[r..]
    ensures forall j :: r < j <= |s| ==> !(marker <= s[j..])
  {
    if marker <= s[i..] then i else if i == 0 then -1 else RFindFrom(s, marker, i - 1)
  }

  // Field `f` is named at position `i` of the fragment.
  ghost predicate MarkerAt(s: string, i: int, f: string) {
    0 <= i <= |s| && "." + f <= s[i..]
  }

  ghost predicate LastMarker(s: string, fields: seq<string>, i: int) {
    (exists f :: f in fields && MarkerAt(s, i, f)) &&
    forall j, f :: i < j && f in fields ==> !MarkerAt(s, j, f)
  }

  ghost predicate NoMarker(s: string, fields: seq<string>) {
    forall j, f :: f in fields ==> !MarkerAt(s, j, f)
  }

  datatype Split = Split(key: string, path: Path)

  // What a split of a fragment must be.
  ghost predicate Splits(fields: seq<string>, fragment: string, r: Option<Split>) {
    if IsDigits(First(fragment)) && Rest(fragment) != "" then
      r == Some(Split(First(fragment), SplitDots(Rest(fragment))))
    else
      (NoMarker(fragment, fields) && r.None?) ||
      (exists i :: LastMarker(fragment, fields, i) && 0 <= i < |fragment| &&
                   r == if i == 0 then None else Some(Split(fragment[..i], SplitDots(fragment[i + 1..]))))
  }

  // `fields` are the known field names.
  method SplitApiConfigFragment(fields: seq<string>, fragment: string) returns (r: Option<Split>)
    ensures Splits(fields, fragment, r)
  {
    if fragment == "" {
      assert forall f :: !MarkerAt("", 0, f);
      return None;
    }
    var first, rest := First(fragment), Rest(fragment);
    if IsDigits(first) && rest != "" {
      return Some(Split(first, SplitDots(rest)));
    }
    var best := LastField(fields, fragment);
    if best <= 0 {
      return None;
    }
    return Some(Split(fragment[..best], SplitDots(fragment[best + 1..])));
  }

  // The loop over the fields: the rightmost marker wins.
  method LastField(fields: seq<string>, fragment: string) returns (best: int)
    ensures if best == -1 then NoMarker(fragment, fields)
            else 0 <= best < |fragment| && LastMarker(fragment, fields, best)
  {
    best := -1;
    var k := 0;
    while k < |fields|
      invariant 0 <= k <= |fields| && -1 <= best < |fragment|
      invariant best >= 0 ==> exists f :: f in fields && MarkerAt(fragment, best, f)
      invariant forall j, m :: best < j && 0 <= m < k ==> !MarkerAt(fragment, j, fields[m])
    {
      var at := RFind(fragment, "." + fields[k]);
      if at != -1 && at > best {
        assert fields[k] in fields && MarkerAt(fragment, at, fields[k]);
        assert |"." + fields[k]| > 0;
        best := at;
      }
      k := k + 1;
    }
  }

  // The result as a function of the fragment.
  ghost function SplitOf(fields: seq<string>, fragment: string): Option<Split> {
    if IsDigits(First(fragment)) && Rest(fragment) != "" then
      Some(Split(First(fragment), SplitDots(Rest(fragment))))
    else
      var i := LastMarkerIndex(fragment, fields, |fragment|);
      if 0 < i < |fragment| then Some(Split(fragment[..i], SplitDots(fragment[i + 1..]))) else None
  }

  // The last position up to `n` where a field is named, or -1.
  ghost function LastMarkerIndex(s: string, fields: seq<string>, n: nat): int {
    if exists f :: f in fields && MarkerAt(s, n, f) then n
    else if n == 0 then -1
    else LastMarkerIndex(s, fields, n - 1)
  }

  lemma {:induction false} LastMarkerIndexIs(s: string, fields: seq<string>, n: nat)
    requires n <= |s| && forall j, f :: n < j && f in fields ==> !MarkerAt(s, j, f)
    ensures var i := LastMarkerIndex(s, fields, n);
            if i == -1 then NoMarker(s, fields) else 0 <= i < |s| && LastMarker(s, fields, i)
    decreases n
  {
    if f :| f in fields && MarkerAt(s, n, f) {
      assert |"." + f| > 0;
    } else if n > 0 {
      LastMarkerIndexIs(s, fields, n - 1);
    }
  }

  lemma SplitOfSplits(fields: seq<string>, fragment: string)
    ensures Splits(fields, fragment, SplitOf(fields, fragment))
  {
    LastMarkerIndexIs(fragment, fields, |fragment|);
  }

  // The contract of the split determines its result.
  lemma SplitsUnique(fields: seq<string>, fragment: string, r: Option<Split>, q: Option<Split>)
    requires Splits(fields, fragment, r) && Splits(fields, fragment, q)
    ensures r == q
  {
  }

  lemma {:induction false} FirstOfDotted(a: string, b: string)
    ensures First(a + "." + b) == First(a)
    ensures Rest(a + "." + b) == if '.' in a then Rest(a) + "." + b else b
  {
    var s := a + "." + b;
    if a == [] {
      assert s[1..] == b;
    } else {
      assert s[1..] == a[1..] + "." + b;
      if a[0] != '.' {
        FirstOfDotted(a[1..], b);
      }
    }
  }

  lemma {:induction false} FirstDotFree(a: string)
    requires '.' !in a
    ensures First(a) == a
  {
    if a == [] {
    } else {
      FirstDotFree(a[1..]);
      assert [a[0]] + a[1..] == a;
    }
  }

  // Splitting undoes flattening for connection keys that are all digits.
  lemma DigitKeysSplit(key: string, path: Path, r: Option<Split>)
    requires IsDigits(key) && (forall i :: 0 <= i < |path| ==> '.' !in path[i]) && Join(path) != ""
    requires Splits(API_CONFIG_FIELDS, key + "." + Join(path), r)
    ensures r == Some(Split(key, path))
  {
    FirstOfDotted(key, Join(path));
    FirstDotFree(key);
    SplitJoin(path);
  }

  lemma FieldsDotFree(f: string)
    requires f in API_CONFIG_FIELDS
    ensures f != "" && '.' !in f
  {
  }

  // A known field begins the text.
  ghost predicate Marked(s: string) {
    exists f :: f in API_CONFIG_FIELDS && f <= s
  }

  // The part of a path from which it is told apart from a key: it begins with a
  // field, and no later segment does.
  ghost predicate MarkedOnce(path: Path) {
    Marked(path[0]) && forall i :: 0 < i < |path| ==> !Marked(path[i])
  }

  ghost predicate DotFree(path: Path) {
    forall i :: 0 <= i < |path| ==> '.' !in path[i]
  }

  // A field holds no dot, so it cannot reach past the first segment.
  lemma FieldBeginsFirst(path: Path, f: string)
    requires f in API_CONFIG_FIELDS && DotFree(path)
    ensures f <= Join(path) <==> f <= path[0]
  {
    FieldsDotFree(f);
    if |path| > 1 && |f| > |path[0]| {
      assert f[|path[0]|] in f && Join(path)[|path[0]|] == '.';
    }
  }

  lemma BehindDot(f: string, s: string)
    ensures "." + f <= "." + s <==> f <= s
  {
    assert ("." + f)[1..] == f && ("." + s)[1..] == s;
  }

  // A marker starts at the dot before a segment that begins with a field.
  lemma {:induction false} MarkersInPath(path: Path, j: int, f: string)
    requires f in API_CONFIG_FIELDS && DotFree(path)
    requires forall i :: 0 < i < |path| ==> !Marked(path[i])
    ensures !MarkerAt(Join(path), j, f)
    decreases |path|
  {
    var s := Join(path);
    assert forall k :: 0 <= k < |path[0]| ==> s[k] == path[0][k] && path[0][k] in path[0];
    if 0 <= j < |s| && s[j] == '.' {
      assert |path| > 1;
      var rest := path[1..];
      assert s[|path[0]| + 1..] == Join(rest);
      if j == |path[0]| {
        FieldBeginsFirst(rest, f);
        BehindDot(f, Join(rest));
        assert s[j..] == "." + Join(rest) && !Marked(path[1]);
      } else {
        MarkersInPath(rest, j - |path[0]| - 1, f);
        assert s[j..] == Join(rest)[j - |path[0]| - 1..];
      }
    } else if 0 <= j <= |s| {
      assert ("." + f)[0] == '.';
      assert j < |s| ==> s[j..][0] == s[j];
    }
  }

  // A later segment that begins with a field leaves a marker inside the path.
  lemma {:induction false} LaterMarker(path: Path, i: nat, f: string) returns (j: nat)
    requires 0 < i < |path| && f <= path[i]
    ensures MarkerAt(Join(path), j, f)
    decreases |path|
  {
    var s, rest := Join(path), path[1..];
    assert s[|path[0]| + 1..] == Join(rest);
    if i == 1 {
      j := |path[0]|;
      assert path[1] <= Join(rest);
      assert s[j..] == "." + Join(rest);
    } else {
      var k := LaterMarker(rest, i - 1, f);
      j := |path[0]| + 1 + k;
      assert s[j..] == Join(rest)[k..];
    }
  }

  // In the flattened key the last marker stands between key and path if and only
  // if the path can be told apart.
  lemma LastMarkerIff(key: string, path: Path)
    requires DotFree(path)
    ensures LastMarker(key + "." + Join(path), API_CONFIG_FIELDS, |key|) <==> MarkedOnce(path)
  {
    var s, tail := key + "." + Join(path), Join(path);
    assert s[|key|..] == "." + tail;
    forall f | f in API_CONFIG_FIELDS ensures MarkerAt(s, |key|, f) <==> f <= path[0] {
      FieldBeginsFirst(path, f);
      BehindDot(f, tail);
    }
    forall j, f | |key| < j <= |s| && f in API_CONFIG_FIELDS
      ensures MarkerAt(s, j, f) <==> MarkerAt(tail, j - |key| - 1, f)
    {
      assert s[j..] == tail[j - |key| - 1..];
    }
    if forall i :: 0 < i < |path| ==> !Marked(path[i]) {
      forall j, f | |key| < j && f in API_CONFIG_FIELDS ensures !MarkerAt(s, j, f) {
        MarkersInPath(path, j - |key| - 1, f);
      }
    } else {
      var i :| 0 < i < |path| && Marked(path[i]);
      var f :| f in API_CONFIG_FIELDS && f <= path[i];
      var j := LaterMarker(path, i, f);
      assert MarkerAt(s, |key| + 1 + j, f);
    }
  }

  lemma NamedKeySplitsIff(key: string, path: Path, r: Option<Split>)
    requires DotFree(path) && Splits(API_CONFIG_FIELDS, key + "." + Join(path), r)
    requires !IsDigits(First(key)) || (Join(path) == "" && '.' !in key)
    ensures r == Some(Split(key, path)) <==> key != "" && MarkedOnce(path)
  {
    var s := key + "." + Join(path);
    FirstOfDotted(key, Join(path));
    SplitJoin(path);
    LastMarkerIff(key, path);
    assert s[..|key|] == key && s[|key| + 1..] == Join(path);
    MarkerSplitsIff(s, API_CONFIG_FIELDS, |key|, r);
  }

  lemma EmptyNotMarked(path: Path)
    requires Join(path) == ""
    ensures !Marked(path[0])
  {
    forall f | f in API_CONFIG_FIELDS ensures f != "" { FieldsDotFree(f); }
  }

  // A split by markers cuts at a given position if and only if the last marker is there.
  lemma MarkerSplitsIff(s: string, fields: seq<string>, i: nat, r: Option<Split>)
    requires Splits(fields, s, r) && !(IsDigits(First(s)) && Rest(s) != "") && i < |s|
    ensures r == Some(Split(s[..i], SplitDots(s[i + 1..]))) <==> i > 0 && LastMarker(s, fields, i)
  {
    if !NoMarker(s, fields) {
      var j :| LastMarker(s, fields, j);
      assert LastMarker(s, fields, i) ==> i == j;
      assert r.Some? ==> |r.value.key| == j;
    }
  }

  lemma DigitKeySplitsIff(key: string, path: Path, r: Option<Split>)
    requires DotFree(path) && Splits(API_CONFIG_FIELDS, key + "." + Join(path), r)
    requires IsDigits(First(key)) && (Join(path) != "" || '.' in key)
    ensures r == Some(Split(key, path)) <==> '.' !in key
  {
    FirstOfDotted(key, Join(path));
    if '.' in key {
      FirstShorter(key);
    } else {
      FirstDotFree(key);
      SplitJoin(path);
    }
  }

  // No segment of a split text holds a dot.
  lemma {:induction false} SplitDotsDotFree(s: string)
    ensures DotFree(SplitDots(s))
  {
    if s == [] {
    } else {
      SplitDotsDotFree(s[1..]);
      var rest := SplitDots(s[1..]);
      assert '.' !in rest[0];
      forall i | 0 <= i < |SplitDots(s)| ensures '.' !in SplitDots(s)[i] {
        assert s[0] == '.' && i > 0 ==> SplitDots(s)[i] == rest[i - 1];
        assert s[0] != '.' && i > 0 ==> SplitDots(s)[i] == rest[i];
      }
    }
  }

  lemma SplitPathDotFree(fields: seq<string>, fragment: string, r: Option<Split>)
    requires Splits(fields, fragment, r) && r.Some?
    ensures DotFree(r.value.path)
  {
    if IsDigits(First(fragment)) && Rest(fragment) != "" {
      SplitDotsDotFree(Rest(fragment));
    } else {
      var i :| LastMarker(fragment, fields, i) && 0 < i < |fragment| &&
               r == Some(Split(fragment[..i], SplitDots(fragment[i + 1..])));
      SplitDotsDotFree(fragment[i + 1..]);
    }
  }

  // Splitting undoes flattening if and only if no path segment holds a dot, the
  // joined path is not empty, and the key goes with it: one whose first segment
  // is all digits holds no dot, and any other is not empty and followed by a path
  // that begins with a known field and has none at a later segment.
  lemma SplitUndoesFlattenIff(key: string, path: Path, r: Option<Split>)
    requires Splits(API_CONFIG_FIELDS, key + "." + Join(path), r)
    ensures r == Some(Split(key, path)) <==>
            DotFree(path) && Join(path) != "" &&
            if IsDigits(First(key)) then '.' !in key else key != "" && MarkedOnce(path)
  {
    if r.Some? {
      SplitPathDotFree(API_CONFIG_FIELDS, key + "." + Join(path), r);
    }
    if DotFree(path) {
      DotFreeSplitsIff(key, path, r);
      if Join(path) == "" {
        EmptyNotMarked(path);
      }
    }
  }

  lemma DotFreeSplitsIff(key: string, path: Path, r: Option<Split>)
    requires DotFree(path) && Splits(API_CONFIG_FIELDS, key + "." + Join(path), r)
    ensures r == Some(Split(key, path)) <==>
            if IsDigits(First(key)) && Join(path) != "" then '.' !in key
            else key != "" && MarkedOnce(path)
  {
    if Join(path) == "" {
      EmptyNotMarked(path);
    }
    if IsDigits(First(key)) && (Join(path) != "" || '.' in key) {
      DigitKeySplitsIff(key, path, r);
    } else {
      NamedKeySplitsIff(key, path, r);
    }
  }

  // With a single known field behind the key it fails exactly for dotted keys
  // whose first segment is all digits, such as an IP address.
  lemma FieldSplitsIff(key: string, field: string, r: Option<Split>)
    requires key != "" && field in API_CONFIG_FIELDS && Splits(API_CONFIG_FIELDS, key + "." + field, r)
    ensures r == Some(Split(key, [field])) <==> !('.' in key && IsDigits(First(key)))
  {
    FieldsDotFree(field);
    SplitUndoesFlattenIff(key, [field], r);
    if IsDigits(First(key)) && '.' !in key {
      FirstDotFree(key);
    }
  }

  // A nested value whose own name is a field goes to a wrong connection, such as
  // conn.headers.key to the key of "conn.headers".
  lemma NestedFieldMisplaced(key: string, field: string, nested: string, r: Option<Split>)
    requires nested in API_CONFIG_FIELDS && key != "" && !IsDigits(First(key))
    requires Splits(API_CONFIG_FIELDS, key + "." + Join([field, nested]), r)
    ensures r == Some(Split(key + "." + field, [nested])) && r != Some(Split(key, [field, nested]))
  {
    var longer := key + "." + field;
    FirstOfDotted(key, field);
    JoinTwo(key, field, nested);
    assert |longer| > |key|;
    FieldSplitsIff(longer, nested, r);
  }

  lemma JoinTwo(key: string, field: string, nested: string)
    ensures key + "." + Join([field, nested]) == key + "." + field + "." + nested
  {
    assert Join([field, nested]) == field + "." + nested;
  }

  lemma {:induction false} FirstShorter(key: string)
    requires '.' in key
    ensures |First(key)| < |key|
  {
    if key[0] == '.' {
    } else {
      FirstShorter(key[1..]);
    }
  }
}
