/** The path-addressed objects of the key-value store. A key is the string of its bytes. */
module KvPaths {
  import opened Wrappers
  import opened Ordering

  const MAX_KEY_BYTES: nat := 1024
  const MAX_OBJECT_BYTES: nat := 4 * 1024 * 1024

  datatype Object = Object(value: seq<bv8>, modified: int)

  type Objects = map<string, Object>

  datatype Listing = InvalidPath | Missing | Found(keys: seq<string>)

  datatype Status = Status(modified: int, size: nat, isValue: bool)

  datatype StatResult = InvalidKey | Absent | Present(status: Status)

  // ----- component prefixes -----

  /** `key` lies below `prefix` in the tree of components. */
  predicate Descends(key: string, prefix: string) {
    prefix + "/" <= key
  }

  predicate Below(key: string, path: string) {
    path == "" || Descends(key, path)
  }

  predicate AtOrBelow(key: string, path: string) {
    key == path || Below(key, path)
  }

  predicate WellFormed(path: string) {
    && |path| <= MAX_KEY_BYTES
    && (path != "" ==> path[0] != '/' && path[|path| - 1] != '/')
    && forall i :: 0 <= i < |path| - 1 ==> !(path[i] == '/' && path[i + 1] == '/')
  }

  predicate ValidKey(key: string) { WellFormed(key) && key != "" }

  ghost predicate AllValid(objects: Objects) {
    forall key :: key in objects ==> ValidKey(key)
  }

  /** The byte range that the index scan reads for a path. */
  predicate Scanned(key: string, path: string) {
    path == "" || key == path || (!Before(key, path + "/") && Before(key, path + "0"))
  }

  lemma {:induction false} RangeIsPrefix(key: string, path: string)
    ensures !Before(key, path + "/") && Before(key, path + "0") <==> Descends(key, path)
  {
    if path == "" {
      assert path + "/" == "/" && path + "0" == "0";
      if key != "" {
        assert Before(key[1..], []) == false;
        assert Before(key, "0") <==> key[0] < '0' || (key[0] == '0' && Before(key[1..], "0"[1..]));
        assert "0"[1..] == [] && "/"[1..] == [];
        assert "/" <= key <==> key[0] == '/';
      }
    } else {
      assert (path + "/")[1..] == path[1..] + "/" && (path + "0")[1..] == path[1..] + "0";
      if key != "" {
        RangeIsPrefix(key[1..], path[1..]);
        assert path + "/" == [path[0]] + (path[1..] + "/");
        if key[0] == path[0] && path[1..] + "/" <= key[1..] { assert key == [key[0]] + key[1..]; }
        if path + "/" <= key { assert path[1..] + "/" == (path + "/")[1..] <= key[1..]; }
      }
    }
  }

  /** The scan selects exactly the path and its component descendants. */
  lemma {:induction false} ScanIsDescent(key: string, path: string)
    ensures Scanned(key, path) <==> AtOrBelow(key, path)
  {
    RangeIsPrefix(key, path);
  }

  /** Two component prefixes of one key are ordered by descent. */
  lemma {:induction false} PrefixesCompare(key: string, p: string, q: string)
    requires AtOrBelow(key, p) && AtOrBelow(key, q) && p != "" && q != ""
    ensures AtOrBelow(p, q) || AtOrBelow(q, p)
  {
    if |p| < |q| {
      assert q <= key && p + "/" <= key;
      assert q[..|p| + 1] == key[..|p| + 1] == p + "/";
    } else if |q| < |p| {
      assert p <= key && q + "/" <= key;
      assert p[..|q| + 1] == key[..|q| + 1] == q + "/";
    } else {
      assert p == key[..|p|] == q;
    }
  }

  // ----- what a listing holds -----

  function Relative(key: string, path: string): string
    requires Below(key, path)
  {
    if path == "" then key else key[|path| + 1..]
  }

  function Join(path: string, relative: string): string {
    if path == "" then relative else path + "/" + relative
  }

  /** `p` is a component prefix of `key`, strictly below `path`; one component below unless `recursive`. */
  predicate Shows(key: string, path: string, recursive: bool, p: string) {
    p != "" && Below(p, path) && AtOrBelow(key, p) && (recursive || '/' !in Relative(p, path))
  }

  ghost predicate Listed(objects: Objects, path: string, recursive: bool, p: string) {
    exists key :: key in objects && Shows(key, path, recursive, p)
  }

  ghost predicate Occupied(objects: Objects, path: string) {
    exists key :: key in objects && AtOrBelow(key, path)
  }

  predicate Boundary(s: string, j: int) {
    0 < j <= |s| && (j < |s| ==> s[j] == '/')
  }

  lemma {:induction false} RelativeIsValid(key: string, path: string)
    requires ValidKey(key) && Below(key, path)
    ensures ValidKey(Relative(key, path))
  {
    var r := Relative(key, path);
    if path != "" {
      assert key[|path|] == '/' && key[|key| - 1] != '/';
      assert key[|path| + 1] != '/';
      assert forall i :: 0 <= i < |r| ==> r[i] == key[|path| + 1 + i];
      forall i | 0 <= i < |r| - 1 ensures !(r[i] == '/' && r[i + 1] == '/') {
        assert !(key[|path| + 1 + i] == '/' && key[|path| + 1 + i + 1] == '/');
      }
    }
  }

  lemma {:induction false} PrefixIsBoundary(key: string, path: string, p: string)
    requires ValidKey(key) && Below(key, path) && p != "" && Below(p, path) && AtOrBelow(key, p)
    ensures var j := |Relative(p, path)|;
      Boundary(Relative(key, path), j) && p == Join(path, Relative(key, path)[..j])
      && Relative(p, path) == Relative(key, path)[..j]
  {
    var r, rp := Relative(key, path), Relative(p, path);
    RelativeIsValid(key, path);
    assert p == key[..|p|];
    assert rp == r[..|rp|];
    if path != "" {
      assert p == path + "/" + rp;
      assert key[|path| + 1] == r[0];
    }
    assert |rp| < |r| ==> r[|rp|] == key[|p|] == '/';
  }

  lemma {:induction false} BoundaryIsPrefix(key: string, path: string, j: int)
    requires Below(key, path) && Boundary(Relative(key, path), j)
    ensures var p := Join(path, Relative(key, path)[..j]);
      p != "" && Below(p, path) && AtOrBelow(key, p) && Relative(p, path) == Relative(key, path)[..j]
  {
    var r := Relative(key, path);
    var p := Join(path, r[..j]);
    assert key == Join(path, r);
    assert p == key[..|p|];
    if j < |r| { assert key[|p|] == '/'; assert p + "/" == key[..|p| + 1]; }
  }

  /** The prefixes one key contributes to a listing, among the first `limit` bytes of its relative part. */
  ghost function Shown(key: string, path: string, limit: int): set<string>
    requires Below(key, path)
  {
    set j | 0 < j < limit && Boundary(Relative(key, path), j) :: Join(path, Relative(key, path)[..j])
  }

  lemma {:induction false} ShownIsListed(key: string, path: string, p: string)
    requires ValidKey(key) && Below(key, path)
    ensures p in Shown(key, path, |key| + 1) <==> p != "" && Below(p, path) && AtOrBelow(key, p)
  {
    if p in Shown(key, path, |key| + 1) {
      var j :| 0 < j < |key| + 1 && Boundary(Relative(key, path), j) && p == Join(path, Relative(key, path)[..j]);
      BoundaryIsPrefix(key, path, j);
    }
    if p != "" && Below(p, path) && AtOrBelow(key, p) {
      PrefixIsBoundary(key, path, p);
    }
  }

  // ----- descent as the database tests it -----

  const NUL: char := '\0'

  /** How many bytes the first character of a text takes: a lead byte takes the continuation bytes after it. */
  function Width(s: string): (n: nat)
    requires s != ""
    ensures 1 <= n <= |s|
  {
    if s[0] as int < 0xc0 then 1 else 1 + Continuation(s[1..])
  }

  function Continuation(s: string): (n: nat)
    ensures n <= |s|
  {
    if s == "" || !(0x80 <= s[0] as int < 0xc0) then 0 else 1 + Continuation(s[1..])
  }

  /** SQL length: the characters before the first NUL. */
  function SqlLength(s: string): nat
    decreases |s|
  {
    if s == "" || s[0] == NUL then 0 else 1 + SqlLength(s[Width(s)..])
  }

  /** SQL substr from the first character on, which also stops at a NUL. */
  function SqlFirst(s: string, n: nat): (r: string)
    ensures r <= s
    decreases n
  {
    if n == 0 || s == "" || s[0] == NUL then "" else s[..Width(s)] + SqlFirst(s[Width(s)..], n - 1)
  }

  /** The SQL condition for a descendant. */
  predicate SqlDescends(key: string, path: string) {
    SqlFirst(key, SqlLength(path) + 1) == path + "/"
  }

  /** Where the first character ends: after one byte, or for a lead byte from 0xc0 on, before the next other byte. */
  lemma {:induction false} WidthExactly(s: string)
    requires s != ""
    ensures var n := Width(s);
      && (s[0] as int < 0xc0 ==> n == 1)
      && (s[0] as int >= 0xc0 ==>
            (forall i :: 0 < i < n ==> 0x80 <= s[i] as int < 0xc0) && (n < |s| ==> !(0x80 <= s[n] as int < 0xc0)))
  {
    ContinuationExactly(s[1..]);
    assert forall i :: 0 < i < |s| ==> s[i] == s[1..][i - 1];
  }

  lemma {:induction false} ContinuationExactly(s: string)
    ensures var n := Continuation(s);
      (forall i :: 0 <= i < n ==> 0x80 <= s[i] as int < 0xc0) && (n < |s| ==> !(0x80 <= s[n] as int < 0xc0))
  {
    if s != "" && 0x80 <= s[0] as int < 0xc0 {
      ContinuationExactly(s[1..]);
      assert forall i :: 0 < i < |s| ==> s[i] == s[1..][i - 1];
    }
  }

  lemma {:induction false} ContinuationStays(s: string, rest: string)
    requires rest == "" || !(0x80 <= rest[0] as int < 0xc0)
    ensures Continuation(s + rest) == Continuation(s)
  {
    if s == "" {
      assert s + rest == rest;
    } else {
      assert (s + rest)[1..] == s[1..] + rest;
      ContinuationStays(s[1..], rest);
    }
  }

  lemma {:induction false} NoNulInside(s: string, n: nat)
    ensures NUL !in SqlFirst(s, n)
    decreases n
  {
    if !(n == 0 || s == "" || s[0] == NUL) {
      var first, rest := s[..Width(s)], SqlFirst(s[Width(s)..], n - 1);
      NoNulInside(s[Width(s)..], n - 1);
      CharacterHasNoNul(s);
      NotInConcat(first, rest, NUL);
      assert SqlFirst(s, n) == first + rest;
    }
  }

  lemma {:induction false} NotInConcat(a: string, b: string, c: char)
    requires c !in a && c !in b
    ensures c !in a + b
  {
  }

  lemma {:induction false} CharacterHasNoNul(s: string)
    requires s != "" && s[0] != NUL
    ensures NUL !in s[..Width(s)]
  {
    forall i | 0 < i < Width(s) ensures s[i] != NUL {
      ContinuationBytes(s[1..], i - 1);
      assert s[1..][i - 1] == s[i];
    }
  }

  lemma {:induction false} ContinuationBytes(s: string, i: nat)
    requires i < Continuation(s)
    ensures 0x80 <= s[i] as int < 0xc0
  {
    if i > 0 { ContinuationBytes(s[1..], i - 1); }
  }

  lemma {:induction false} WidthStays(key: string, path: string)
    requires path != "" && path + "/" <= key
    ensures Width(key) == Width(path)
  {
    var rest := key[|path|..];
    assert rest[0] == '/' && key == path + rest;
    assert key[1..] == path[1..] + rest;
    ContinuationStays(path[1..], rest);
  }

  lemma {:induction false} PathSplits(key: string, path: string, w: nat)
    requires w <= |path| && path + "/" <= key
    ensures key[..w] == path[..w] && path[w..] + "/" <= key[w..] && path[..w] + (path[w..] + "/") == path + "/"
  {
    assert key[..|path| + 1] == path + "/";
    assert key[w..][..|path| - w + 1] == path[w..] + "/";
  }

  /** A path without a NUL is found by its characters in front of a slash. */
  lemma {:induction false} FirstIsPath(key: string, path: string)
    requires NUL !in path && path + "/" <= key
    ensures SqlFirst(key, SqlLength(path) + 1) == path + "/"
    decreases |path|
  {
    if path == "" {
      assert key[0] == '/' && key[..1] == "/" && SqlFirst(key[1..], 0) == "";
    } else {
      var w := Width(path);
      WidthStays(key, path);
      PathSplits(key, path, w);
      FirstIsPath(key[w..], path[w..]);
      assert path[0] != NUL && key[0] == path[0];
      assert SqlLength(path) == 1 + SqlLength(path[w..]);
    }
  }

  /** The database finds the descendants of a path exactly if it has no NUL. */
  lemma {:induction false} SqlDescentExactly(key: string, path: string)
    ensures SqlDescends(key, path) <==> NUL !in path && Descends(key, path)
  {
    if NUL in path {
      NoNulInside(key, SqlLength(path) + 1);
      var i :| 0 <= i < |path| && path[i] == NUL;
      assert (path + "/")[i] == NUL;
    } else if Descends(key, path) {
      FirstIsPath(key, path);
    }
  }

  predicate SqlBelow(key: string, path: string) {
    path == "" || SqlDescends(key, path)
  }

  /** The database can tell what lies below: the path has no NUL, or nothing lies below it. */
  ghost predicate Discernible(objects: Objects, path: string) {
    NUL !in path || forall k :: k in objects ==> !Descends(k, path)
  }

  // ----- deletion -----

  function Without(objects: Objects, key: string, recursive: bool): Objects {
    map k | k in objects && k != key && !(recursive && SqlDescends(k, key)) :: objects[k]
  }

  /** A plain delete removes the one key, and keeps what lies below it. */
  lemma {:induction false} PlainDeleteKeepsOthers(objects: Objects, key: string)
    ensures var after := Without(objects, key, false);
      && key !in after
      && forall other :: other != key ==> (other in after <==> other in objects) && (other in after ==> after[other] == objects[other])
  {
  }

  /**
   * After a recursive delete nothing is left at or below the key if and only if it has no NUL or had no descendants;
   * everything elsewhere is as it was.
   */
  lemma {:induction false} DeletedIsGone(objects: Objects, key: string)
    requires ValidKey(key)
    ensures !Occupied(Without(objects, key, true), key) <==> Discernible(objects, key)
    ensures forall other :: other in objects && !AtOrBelow(other, key) ==>
              other in Without(objects, key, true) && Without(objects, key, true)[other] == objects[other]
  {
    var after := Without(objects, key, true);
    forall k ensures SqlDescends(k, key) <==> NUL !in key && Descends(k, key) { SqlDescentExactly(k, key); }
    if !Discernible(objects, key) {
      var k :| k in objects && Descends(k, key);
      assert k in after && AtOrBelow(k, key);
    }
  }

  /** With a NUL the descendants stay and a listing shows them, although a status request finds nothing. */
  lemma {:induction false} NulHidesDescendants(stored: Object)
    ensures var key, below := "a" + [NUL] + "b", "a" + [NUL] + "b/x";
      var objects := map[below := stored];
      && ValidKey(key) && ValidKey(below) && Without(objects, key, true) == objects
      && Listed(objects, key, true, below) && forall k :: k in objects ==> !SqlBelow(k, key)
  {
    var key, below := "a" + [NUL] + "b", "a" + [NUL] + "b/x";
    assert below == key + "/x" && key[1] == NUL;
    SqlDescentExactly(below, key);
    assert Shows(below, key, true, below);
  }

  /** A recursive delete changes no listing of a path that is neither above nor below the key. */
  lemma {:induction false} DeleteKeepsOtherListings(objects: Objects, key: string, path: string, recursive: bool,
          p: string)
    requires ValidKey(key) && path != "" && !AtOrBelow(path, key) && !AtOrBelow(key, path)
    ensures Listed(Without(objects, key, true), path, recursive, p) <==> Listed(objects, path, recursive, p)
    ensures Occupied(Without(objects, key, true), path) <==> Occupied(objects, path)
  {
    var after := Without(objects, key, true);
    forall k | k in objects && AtOrBelow(k, path) ensures k in after {
      SqlDescentExactly(k, key);
      if AtOrBelow(k, key) { PrefixesCompare(k, path, key); }
    }
    if Listed(objects, path, recursive, p) {
      var k :| k in objects && Shows(k, path, recursive, p);
      assert path + "/" <= k;
      assert k in after;
    }
  }

  // ----- the repository -----

  /** Adds every component prefix of one key below the path. */
  method AddPrefixes(key: string, path: string, shown: set<string>) returns (result: set<string>)
    requires ValidKey(key) && Below(key, path)
    ensures result == shown + Shown(key, path, |key| + 1)
  {
    var relative := Relative(key, path);
    RelativeIsValid(key, path);
    result := shown;
    var current := "";
    var start := 0;
    while start <= |relative|
      invariant 0 <= start <= |relative| + 1
      invariant start == 0 ==> current == ""
      invariant start > 0 ==> Boundary(relative, start - 1) && current == relative[..start - 1]
      invariant result == shown + Shown(key, path, start)
      decreases |relative| + 1 - start
    {
      var end := start;
      while end < |relative| && relative[end] != '/'
        invariant start <= end <= |relative|
        invariant forall i :: start <= i < end ==> relative[i] != '/'
      {
        end := end + 1;
      }
      if current != "" { current := current + "/"; }
      current := current + relative[start..end];
      assert current == relative[..end];
      ShownGrows(key, path, start, end);
      result := result + {Join(path, current)};
      start := end + 1;
    }
    assert Shown(key, path, start) == Shown(key, path, |key| + 1);
  }

  lemma {:induction false} ShownGrows(key: string, path: string, start: int, end: int)
    requires Below(key, path)
    requires var r := Relative(key, path);
      0 <= start <= end <= |r| && 0 < end && (end < |r| ==> r[end] == '/') && forall i :: start <= i < end ==> r[i] != '/'
    ensures Shown(key, path, end + 1) == Shown(key, path, start) + {Join(path, Relative(key, path)[..end])}
  {
    var r := Relative(key, path);
    assert Boundary(r, end);
    assert forall j :: start <= j < end ==> !Boundary(r, j);
  }

  class KvRepository {
    var objects: Objects

    ghost predicate Valid() reads this { AllValid(objects) }

    constructor ()
      ensures Valid() && objects == map[]
    {
      objects := map[];
    }

    method Put(key: string, value: seq<bv8>, now: int) returns (ok: bool)
      requires Valid()
      modifies this
      ensures Valid()
      ensures ok <==> ValidKey(key) && |value| <= MAX_OBJECT_BYTES
      ensures objects == if ok then old(objects)[key := Object(value, now)] else old(objects)
    {
      if !ValidKey(key) || |value| > MAX_OBJECT_BYTES { return false; }
      objects := objects[key := Object(value, now)];
      ok := true;
    }

    method Delete(key: string, recursive: bool) returns (ok: bool)
      requires Valid()
      modifies this
      ensures Valid()
      ensures ok <==> ValidKey(key)
      ensures objects == if ok then Without(old(objects), key, recursive) else old(objects)
    {
      if !ValidKey(key) { return false; }
      if recursive {
        objects := map k | k in objects && !(k == key || SqlFirst(k, SqlLength(key) + 1) == key + "/") :: objects[k];
      } else {
        objects := objects - {key};
      }
      ok := true;
    }

    /** The scanned keys, in key order. */
    method KeysAt(path: string) returns (keys: seq<string>)
      ensures Sorted(keys)
      ensures forall key :: key in keys <==> key in objects && AtOrBelow(key, path)
    {
      var scanned := set key | key in objects && Scanned(key, path);
      keys := SortIds(scanned);
      OrderedContents(scanned);
      OrderedIsSorted(scanned);
      forall key ensures key in keys <==> key in objects && AtOrBelow(key, path) {
        ScanIsDescent(key, path);
        assert key in keys <==> key in Elements(keys);
      }
    }

    /** What one key adds to a listing. */
    method Show(key: string, path: string, recursive: bool, shown: set<string>) returns (result: set<string>)
      requires ValidKey(key) && Below(key, path)
      ensures forall p :: p in result <==> p in shown || Shows(key, path, recursive, p)
    {
      if recursive {
        result := AddPrefixes(key, path, shown);
        forall p ensures p in Shown(key, path, |key| + 1) <==> p != "" && Below(p, path) && AtOrBelow(key, p) {
          ShownIsListed(key, path, p);
        }
      } else {
        var relative := Relative(key, path);
        var end := 0;
        while end < |relative| && relative[end] != '/'
          invariant 0 <= end <= |relative|
          invariant '/' !in relative[..end]
        {
          end := end + 1;
        }
        result := shown + {Join(path, relative[..end])};
        FirstComponent(key, path, end);
      }
    }

    method List(path: string, recursive: bool) returns (r: Listing)
      requires Valid()
      ensures r.InvalidPath? <==> !WellFormed(path)
      ensures r.Missing? <==> WellFormed(path) && !Occupied(objects, path)
      ensures r.Found? ==> Sorted(r.keys) && forall p :: p in r.keys <==> Listed(objects, path, recursive, p)
    {
      if !WellFormed(path) { return InvalidPath; }
      var keys := KeysAt(path);
      if keys == [] { return Missing; }
      assert keys[0] in keys;
      var shown: set<string> := {};
      for i := 0 to |keys|
        invariant forall p :: p in shown <==> exists k :: 0 <= k < i && Shows(keys[k], path, recursive, p)
      {
        if Below(keys[i], path) {
          shown := Show(keys[i], path, recursive, shown);
        } else {
          forall p ensures !Shows(keys[i], path, recursive, p) { OnlyBelowShows(keys[i], path, recursive, p); }
        }
      }
      var listed := SortIds(shown);
      r := Found(listed);
      OrderedContents(shown);
      OrderedIsSorted(shown);
      forall p ensures p in r.keys <==> Listed(objects, path, recursive, p) {
        assert p in r.keys <==> p in Elements(r.keys);
        if Listed(objects, path, recursive, p) {
          var key :| key in objects && Shows(key, path, recursive, p);
          DescentIsTransitive(key, p, path);
          assert key in keys;
        }
      }
    }

    /** A directory is what the database finds below the key. */
    method Stat(key: string) returns (r: StatResult)
      requires Valid()
      ensures r.InvalidKey? <==> !WellFormed(key)
      ensures r.Absent? <==> WellFormed(key) && key !in objects && forall k :: k in objects ==> !SqlBelow(k, key)
      ensures r.Present? ==> r.status.isValue == (key in objects)
      ensures r.Present? && key in objects ==> r.status.modified == objects[key].modified && r.status.size == |objects[key].value|
      ensures r.Present? && key !in objects ==>
                && r.status.size == 0
                && (exists k :: k in objects && SqlBelow(k, key) && objects[k].modified == r.status.modified)
                && (forall k :: k in objects && SqlBelow(k, key) ==> objects[k].modified <= r.status.modified)
    {
      if !WellFormed(key) { return InvalidKey; }
      if key != "" && key in objects {
        return Present(Status(objects[key].modified, |objects[key].value|, true));
      }
      var newest: Option<int> := None;
      var todo := set k | k in objects && SqlBelow(k, key);
      var done: set<string> := {};
      while todo != {}
        invariant todo + done == set k | k in objects && SqlBelow(k, key)
        invariant newest.None? <==> done == {}
        invariant newest.Some? ==>
                    && (exists k :: k in done && objects[k].modified == newest.value)
                    && (forall k :: k in done ==> objects[k].modified <= newest.value)
        decreases todo
      {
        var k :| k in todo;
        todo, done := todo - {k}, done + {k};
        if newest.None? || objects[k].modified > newest.value {
          newest := Some(objects[k].modified);
        }
      }
      assert forall k :: k in objects && SqlBelow(k, key) ==> k in todo + done;
      if newest.None? { return Absent; }
      r := Present(Status(newest.value, 0, false));
    }
  }

  /** A status request finds what a listing finds exactly if the key is a value or the database can tell. */
  lemma {:induction false} StatSeesExactly(objects: Objects, key: string)
    requires AllValid(objects) && WellFormed(key)
    ensures (Occupied(objects, key) <==> key in objects || exists k :: k in objects && SqlBelow(k, key))
            <==> key in objects || Discernible(objects, key)
  {
    forall k ensures SqlDescends(k, key) <==> NUL !in key && Descends(k, key) { SqlDescentExactly(k, key); }
    if key !in objects && !Discernible(objects, key) {
      var k :| k in objects && Descends(k, key);
      assert AtOrBelow(k, key) && key != "";
    }
  }

  /** A recursive delete, then a listing and a status request for the key, another listing, and another key. */
  method DeleteThenLook(kv: KvRepository, key: string, path: string, recursive: bool, other: string)
    returns (listing: Listing, status: StatResult, above: Listing, elsewhere: StatResult)
    requires kv.Valid() && ValidKey(key)
    modifies kv
    ensures kv.Valid() && status == Absent
    ensures listing == Missing <==> Discernible(old(kv.objects), key)
    ensures above.Found? && Discernible(old(kv.objects), key) ==> forall p :: p in above.keys ==> !AtOrBelow(p, key)
    ensures other in old(kv.objects) && !AtOrBelow(other, key) ==>
              elsewhere == Present(Status(old(kv.objects)[other].modified, |old(kv.objects)[other].value|, true))
  {
    ghost var before := kv.objects;
    var ok := kv.Delete(key, true);
    DeletedIsGone(before, key);
    listing := kv.List(key, recursive);
    status := kv.Stat(key);
    above := kv.List(path, recursive);
    elsewhere := kv.Stat(other);
    forall p | Discernible(before, key) && Listed(kv.objects, path, recursive, p) ensures !AtOrBelow(p, key) {
      var k :| k in kv.objects && Shows(k, path, recursive, p);
      if AtOrBelow(p, key) { DescentIsTransitive(k, p, key); }
    }
  }

  lemma {:induction false} DescentIsTransitive(key: string, p: string, path: string)
    requires AtOrBelow(key, p) && p != "" && Below(p, path)
    ensures Below(key, path)
  {
    if path != "" && key != p { assert path + "/" <= p <= key; }
  }

  lemma {:induction false} OnlyBelowShows(key: string, path: string, recursive: bool, p: string)
    ensures Shows(key, path, recursive, p) ==> Below(key, path)
  {
    if Shows(key, path, recursive, p) { DescentIsTransitive(key, p, path); }
  }

  lemma {:induction false} FirstComponent(key: string, path: string, end: int)
    requires ValidKey(key) && Below(key, path)
    requires var r := Relative(key, path); 0 <= end <= |r| && '/' !in r[..end] && (end < |r| ==> r[end] == '/')
    ensures forall p :: p == Join(path, Relative(key, path)[..end]) <==> Shows(key, path, false, p)
  {
    var r := Relative(key, path);
    RelativeIsValid(key, path);
    assert forall j :: 0 < j < end ==> r[j] == r[..end][j] && !Boundary(r, j);
    BoundaryIsPrefix(key, path, end);
    forall p | Shows(key, path, false, p)
      ensures p == Join(path, r[..end])
    {
      PrefixIsBoundary(key, path, p);
      var j := |Relative(p, path)|;
      assert forall i :: 0 <= i < j ==> r[..j][i] == r[i] != '/';
    }
  }
}
