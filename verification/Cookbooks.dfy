/** Cookbook versions and the removal of files no version uses any more (cookbook/cookbook.go). */
module Cookbooks {
  import opened Wrappers
  import opened Strings
  import Sorting

  /** A file of a cookbook division; the checksum is missing when it is absent or not a string. */
  datatype Entry = Entry(checksum: Option<string>)

  datatype Version = Version(
    definitions: seq<Entry>, libraries: seq<Entry>, attributes: seq<Entry>, recipes: seq<Entry>,
    providers: seq<Entry>, resources: seq<Entry>, templates: seq<Entry>, rootFiles: seq<Entry>,
    files: seq<Entry>, frozen: bool)

  type Cookbook = map<string, Version>

  /** An uploaded version, with the error the validation of its other fields ends in, if any. */
  datatype Upload = Upload(content: Version, error: Option<string>)

  datatype Outcome = Done | Conflict | NotFound | Invalid(error: string)

  function AttrHashes(entries: seq<Entry>): (r: seq<string>)
    ensures |r| == |entries|
  {
    seq(|entries|, i requires 0 <= i < |entries| => if entries[i].checksum.Some? then entries[i].checksum.value else "")
  }

  function AllHashes(v: Version): seq<string> {
    AttrHashes(v.definitions) + AttrHashes(v.libraries) + AttrHashes(v.attributes) + AttrHashes(v.recipes) +
    AttrHashes(v.providers) + AttrHashes(v.resources) + AttrHashes(v.templates) + AttrHashes(v.rootFiles) +
    AttrHashes(v.files)
  }

  /** The hashes of all files associated with a version. */
  ghost function HashSet(v: Version): set<string> {
    set h | h in AllHashes(v)
  }

  /** A file of a division has the hash, or has none and the hash is empty. */
  predicate InDivision(div: seq<Entry>, h: string) {
    exists i :: 0 <= i < |div| && div[i].checksum == (if h == "" && div[i].checksum.None? then None else Some(h))
  }

  /** A file of one of the nine divisions has the hash. */
  predicate Mentions(v: Version, h: string) {
    InDivision(v.definitions, h) || InDivision(v.libraries, h) || InDivision(v.attributes, h) ||
    InDivision(v.recipes, h) || InDivision(v.providers, h) || InDivision(v.resources, h) ||
    InDivision(v.templates, h) || InDivision(v.rootFiles, h) || InDivision(v.files, h)
  }

  lemma AttrHashesAre(div: seq<Entry>, h: string)
    ensures h in AttrHashes(div) <==> InDivision(div, h)
  {
    if h in AttrHashes(div) {
      var i :| 0 <= i < |div| && AttrHashes(div)[i] == h;
      assert div[i].checksum == (if h == "" && div[i].checksum.None? then None else Some(h));
    }
    if InDivision(div, h) {
      var i :| 0 <= i < |div| && div[i].checksum == (if h == "" && div[i].checksum.None? then None else Some(h));
      assert AttrHashes(div)[i] == h;
    }
  }

  /** The hashes of a version are those its files have. */
  lemma HashesAreMentioned(v: Version, h: string)
    ensures h in HashSet(v) <==> Mentions(v, h)
  {
    hide AttrHashes, InDivision;
    AttrHashesAre(v.definitions, h);
    AttrHashesAre(v.libraries, h);
    AttrHashesAre(v.attributes, h);
    AttrHashesAre(v.recipes, h);
    AttrHashesAre(v.providers, h);
    AttrHashesAre(v.resources, h);
    AttrHashesAre(v.templates, h);
    AttrHashesAre(v.rootFiles, h);
    AttrHashesAre(v.files, h);
  }

  ghost function UsedIn(c: Cookbook): set<string> {
    set ver, h | ver in c && h in HashSet(c[ver]) :: h
  }

  /** The hashes some version of some cookbook uses. */
  ghost function Used(cookbooks: map<string, Cookbook>): set<string> {
    set name, h | name in cookbooks && h in UsedIn(cookbooks[name]) :: h
  }

  /** Some version of some cookbook has a file with the hash. */
  ghost predicate InUse(cookbooks: map<string, Cookbook>, h: string) {
    exists name, ver :: name in cookbooks && ver in cookbooks[name] && Mentions(cookbooks[name][ver], h)
  }

  lemma UsedIsInUse(cookbooks: map<string, Cookbook>, h: string)
    ensures h in Used(cookbooks) <==> InUse(cookbooks, h)
  {
    hide HashSet, Mentions;
    if h in Used(cookbooks) {
      var name :| name in cookbooks && h in UsedIn(cookbooks[name]);
      var ver :| ver in cookbooks[name] && h in HashSet(cookbooks[name][ver]);
      HashesAreMentioned(cookbooks[name][ver], h);
    }
    if InUse(cookbooks, h) {
      var name, ver :| name in cookbooks && ver in cookbooks[name] && Mentions(cookbooks[name][ver], h);
      HashesAreMentioned(cookbooks[name][ver], h);
      assert h in UsedIn(cookbooks[name]);
    }
  }

  ghost function Elements(s: seq<string>): set<string> {
    set x | x in s
  }

  /** A sorted slice without duplicates of the version's hashes. */
  method FileHashes(v: Version) returns (a: array<string>, n: nat)
    ensures fresh(a) && n <= a.Length && StrictlySorted(a[..n]) && Elements(a[..n]) == HashSet(v)
    ensures forall h :: h in a[..n] <==> Mentions(v, h)
  {
    hide AllHashes, SortedStrings, Collapse, StrictlySorted, Mentions;
    var hashes := AllHashes(v);
    var sorted := SortedStrings(hashes);
    Deduplicated(hashes);
    a := new string[|sorted|](i requires 0 <= i < |sorted| => sorted[i]);
    assert a[..] == sorted;
    n := RemoveDupStrings(a);
    forall h
      ensures h in a[..n] <==> Mentions(v, h)
    {
      HashesAreMentioned(v, h);
      assert h in a[..n] <==> h in Elements(a[..n]);
    }
  }

  lemma Deduplicated(hashes: seq<string>)
    ensures StrictlySorted(Collapse(SortedStrings(hashes)))
    ensures Elements(Collapse(SortedStrings(hashes))) == Elements(hashes)
  {
    hide SortedStrings, Collapse, StrictlySorted, Sorting.Sorted;
    var sorted := SortedStrings(hashes);
    SortingWorks(hashes);
    CollapseSorted(sorted);
    CollapseKeepsElements(sorted);
  }

  lemma NotBefore(s: seq<string>, i: nat, x: string)
    requires StrictlySorted(s) && i < |s| && Less(x, s[i])
    ensures forall k :: i <= k < |s| ==> s[k] != x
  {
    forall k | i <= k < |s|
      ensures s[k] != x
    {
      if i < k && s[k] == x {
        NotBoth(s[i], x);
      }
      LessIrreflexive(s[i]);
    }
  }

  lemma RemoveAt(s: seq<string>, i: nat)
    requires StrictlySorted(s) && i < |s|
    ensures var r := s[..i] + s[i + 1..]; StrictlySorted(r) && Elements(r) == Elements(s) - {s[i]}
  {
    hide Less;
    var r := s[..i] + s[i + 1..];
    forall k | 0 <= k < |s| && k != i
      ensures s[k] != s[i] && s[k] in r
    {
      LessIrreflexive(s[i]);
      assert s[k] == if k < i then r[k] else r[k - 1];
    }
    assert forall x :: x in r ==> x in s;
  }

  /** Strikes one hash off the slice; the slice being sorted, the search may stop at the first greater one. */
  method Strike(a: array<string>, n: nat, vh: string) returns (m: nat)
    requires n <= a.Length && StrictlySorted(a[..n])
    modifies a
    ensures m <= a.Length && StrictlySorted(a[..m]) && Elements(a[..m]) == old(Elements(a[..n])) - {vh}
  {
    hide StrictlySorted, Less;
    ghost var s := a[..n];
    for i := 0 to n
      invariant a[..n] == s && forall k :: 0 <= k < i ==> s[k] != vh
    {
      if a[i] == vh {
        RemoveAt(s, i);
        m := DelSliceElement(i, a, n);
        return;
      } else if Less(vh, a[i]) {
        NotBefore(s, i, vh);
        return n;
      }
    }
    m := n;
  }

  /** Strikes every hash of a version off the slice. */
  method StrikeVersion(v: Version, a: array<string>, n: nat) returns (m: nat)
    requires n <= a.Length && StrictlySorted(a[..n])
    modifies a
    ensures m <= a.Length && StrictlySorted(a[..m]) && Elements(a[..m]) == old(Elements(a[..n])) - HashSet(v)
  {
    hide StrictlySorted, HashSet;
    var verHash, count := FileHashes(v);
    ghost var hashes := verHash[..];
    ghost var start := Elements(a[..n]);
    m := n;
    for i := 0 to count
      invariant m <= a.Length && StrictlySorted(a[..m]) && verHash[..] == hashes
      invariant Elements(a[..m]) == start - Elements(hashes[..i])
    {
      m := Strike(a, m, verHash[i]);
      assert hashes[..i + 1] == hashes[..i] + [hashes[i]];
    }
    assert hashes[..count] == verHash[..count];
  }

  /** Strikes every hash that a version of the cookbook uses off the slice. */
  method StrikeCookbook(cb: Cookbook, a: array<string>, n: nat) returns (m: nat)
    requires n <= a.Length && StrictlySorted(a[..n])
    modifies a
    ensures m <= a.Length && StrictlySorted(a[..m]) && Elements(a[..m]) == old(Elements(a[..n])) - UsedIn(cb)
  {
    hide StrictlySorted, HashSet;
    ghost var start := Elements(a[..n]);
    ghost var struck := {};
    m := n;
    var todo := cb.Keys;
    while todo != {}
      invariant m <= a.Length && StrictlySorted(a[..m]) && todo <= cb.Keys
      invariant Elements(a[..m]) == start - struck
      invariant struck <= UsedIn(cb) && forall ver :: ver in cb.Keys - todo ==> HashSet(cb[ver]) <= struck
    {
      var ver :| ver in todo;
      todo := todo - {ver};
      m := StrikeVersion(cb[ver], a, m);
      struck := struck + HashSet(cb[ver]);
    }
    assert struck == UsedIn(cb);
  }

  // ---- Uploads ----

  /** Entries without a checksum are dropped. */
  function Kept(div: seq<Entry>): seq<Entry> {
    if div == [] then []
    else Kept(div[..|div| - 1]) + (if div[|div| - 1].checksum.Some? then [div[|div| - 1]] else [])
  }

  /** Every checksum is that of a stored file. */
  predicate Present(div: seq<Entry>, files: set<string>) {
    forall i :: 0 <= i < |div| && div[i].checksum.Some? ==> div[i].checksum.value in files
  }

  /** Validates a division: nothing when a checksum has not been uploaded. */
  method ValidateDivision(div: seq<Entry>, files: set<string>) returns (r: Option<seq<Entry>>)
    ensures r == if Present(div, files) then Some(Kept(div)) else None
  {
    var d := [];
    for i := 0 to |div|
      invariant Present(div[..i], files) && d == Kept(div[..i])
    {
      var v := div[i];
      assert div[..i + 1][..i] == div[..i];
      if v.checksum.Some? {
        if v.checksum.value !in files {
          return None;
        }
        d := d + [v];
      }
    }
    assert div[..|div|] == div;
    return Some(d);
  }

  function Validated(v: Version): Version {
    Version(Kept(v.definitions), Kept(v.libraries), Kept(v.attributes), Kept(v.recipes), Kept(v.providers),
      Kept(v.resources), Kept(v.templates), Kept(v.rootFiles), Kept(v.files), v.frozen)
  }

  predicate AllPresent(v: Version, files: set<string>) {
    Present(v.definitions, files) && Present(v.libraries, files) && Present(v.attributes, files) &&
    Present(v.recipes, files) && Present(v.providers, files) && Present(v.resources, files) &&
    Present(v.templates, files) && Present(v.rootFiles, files) && Present(v.files, files)
  }

  /** Validates the divisions one after another. */
  method ValidateDivisions(v: Version, files: set<string>) returns (r: Option<Version>)
    ensures r == if AllPresent(v, files) then Some(Validated(v)) else None
  {
    hide Present, Kept;
    var divs := [v.definitions, v.libraries, v.attributes, v.recipes, v.providers, v.resources, v.templates,
                 v.rootFiles, v.files];
    var kept: seq<seq<Entry>> := [];
    for i := 0 to |divs|
      invariant |kept| == i
      invariant forall k :: 0 <= k < i ==> Present(divs[k], files) && kept[k] == Kept(divs[k])
    {
      var d := ValidateDivision(divs[i], files);
      if d.None? {
        assert !Present(divs[i], files);
        return None;
      }
      kept := kept + [d.value];
    }
    return Some(Version(kept[0], kept[1], kept[2], kept[3], kept[4], kept[5], kept[6], kept[7], kept[8], v.frozen));
  }

  lemma {:induction false} KeptPresent(div: seq<Entry>, files: set<string>)
    requires Present(div, files)
    ensures forall h :: h in AttrHashes(Kept(div)) ==> h in files
  {
    if div != [] {
      var init, last := div[..|div| - 1], div[|div| - 1];
      KeptPresent(init, files);
      assert AttrHashes(Kept(div)) ==
        AttrHashes(Kept(init)) + if last.checksum.Some? then [last.checksum.value] else [];
    }
  }

  /** Of a version that passes, every hash is that of a stored file. */
  lemma ValidatedIsStored(v: Version, files: set<string>)
    requires AllPresent(v, files)
    ensures HashSet(Validated(v)) <= files
  {
    hide Kept, Present, AttrHashes;
    KeptPresent(v.definitions, files);
    KeptPresent(v.libraries, files);
    KeptPresent(v.attributes, files);
    KeptPresent(v.recipes, files);
    KeptPresent(v.providers, files);
    KeptPresent(v.resources, files);
    KeptPresent(v.templates, files);
    KeptPresent(v.rootFiles, files);
    KeptPresent(v.files, files);
  }

  // ---- The server ----

  /** What the cookbook methods can see and change. */
  datatype World = World(cookbooks: map<string, Cookbook>, files: set<string>)

  datatype Op =
    | Store(hash: string)                                                   // a file is uploaded
    | StartCookbook(name: string)
    | DropCookbook(name: string)
    | Create(name: string, ver: string, data: Upload)
    | Update(name: string, ver: string, data: Upload, force: bool)
    | Delete(name: string, ver: string)

  function Merged(was: Version, now: Version): Version {
    now.(frozen := was.frozen || now.frozen)
  }

  function Put(w: World, name: string, ver: string, v: Version): map<string, Cookbook>
    requires name in w.cookbooks
  {
    w.cookbooks[name := w.cookbooks[name][ver := v]]
  }

  predicate ValidName(name: string) {
    forall i :: 0 <= i < |name| ==>
      'A' <= name[i] <= 'Z' || 'a' <= name[i] <= 'z' || '0' <= name[i] <= '9' || name[i] in "_.-"
  }

  lemma SignsOfName(name: string)
    ensures ValidName(name) <==> forall c :: c in name ==>
      'A' <= c <= 'Z' || 'a' <= c <= 'z' || '0' <= c <= '9' || c == '_' || c == '.' || c == '-'
  {
    if !ValidName(name) {
      var i :| 0 <= i < |name| && !('A' <= name[i] <= 'Z' || 'a' <= name[i] <= 'z' || '0' <= name[i] <= '9' ||
                                    name[i] in "_.-");
      assert name[i] in name && '_' == "_.-"[0] && '.' == "_.-"[1] && '-' == "_.-"[2];
    }
  }

  ghost predicate Accepts(w: World, op: Op) {
    match op
    case Store(_) => true
    case StartCookbook(name) => ValidName(name)
    case DropCookbook(_) => true
    case Create(name, ver, data) =>
      name in w.cookbooks && ver != "_latest" && ver !in w.cookbooks[name] && data.error.None? &&
      AllPresent(data.content, w.files)
    case Update(name, ver, data, force) =>
      name in w.cookbooks && ver in w.cookbooks[name] && data.error.None? && AllPresent(data.content, w.files) &&
      (w.cookbooks[name][ver].frozen ==> force)
    case Delete(name, ver) => name in w.cookbooks && ver in w.cookbooks[name]
  }

  /** The cookbooks after an operation; a refused one changes nothing. */
  ghost function CookbooksAfter(w: World, op: Op): map<string, Cookbook> {
    if !Accepts(w, op) then w.cookbooks else
      match op
      case Store(_) => w.cookbooks
      case StartCookbook(name) => w.cookbooks[name := map[]]
      case DropCookbook(name) => w.cookbooks - {name}
      case Create(name, ver, data) => Put(w, name, ver, Validated(data.content))
      case Update(name, ver, data, _) => Put(w, name, ver, Merged(w.cookbooks[name][ver], Validated(data.content)))
      case Delete(name, ver) => w.cookbooks[name := w.cookbooks[name] - {ver}]
  }

  /** The hashes of the version an operation replaces or deletes. */
  ghost function Replaced(w: World, op: Op): set<string> {
    if !Accepts(w, op) then {} else
      match op
      case Update(name, ver, _, _) => HashSet(w.cookbooks[name][ver])
      case Delete(name, ver) => HashSet(w.cookbooks[name][ver])
      case _ => {}
  }

  /** The world after an operation: of the replaced version's files, those no remaining version uses are gone. */
  ghost function After(w: World, op: Op): World {
    var cookbooks := CookbooksAfter(w, op);
    var files := w.files - (Replaced(w, op) - Used(cookbooks));
    World(cookbooks, if op.Store? then files + {op.hash} else files)
  }

  ghost function RunOf(w: World, ops: seq<Op>): World {
    if ops == [] then w else After(RunOf(w, ops[..|ops| - 1]), ops[|ops| - 1])
  }

  class Server {
    var cookbooks: map<string, Cookbook>
    var files: set<string>

    constructor ()
      ensures Snapshot() == World(map[], {})
    {
      cookbooks, files := map[], {};
    }

    ghost function Snapshot(): World
      reads this
    {
      World(cookbooks, files)
    }

    /** What deleteHashes looks at: the stored cookbooks, with the one at hand as it is in memory. */
    ghost function Seen(name: string, c: Cookbook): map<string, Cookbook>
      reads this
    {
      if name in cookbooks then cookbooks[name := c] else cookbooks
    }

    /** Removes from the file store the listed hashes no version uses. */
    method DeleteHashes(name: string, c: Cookbook, a: array<string>, n: nat)
      requires n <= a.Length && StrictlySorted(a[..n])
      modifies this`files, a
      ensures files == old(files) - (old(Elements(a[..n])) - Used(old(Seen(name, c))))
    {
      hide StrictlySorted, UsedIn;
      ghost var all := Seen(name, c);
      ghost var start := Elements(a[..n]);
      var m: nat := n;
      var todo := cookbooks.Keys;
      ghost var struck := {};
      while todo != {}
        invariant m <= a.Length && StrictlySorted(a[..m]) && todo <= cookbooks.Keys && files == old(files)
        invariant Elements(a[..m]) == start - struck
        invariant struck <= Used(all) && forall k :: k in all.Keys - todo ==> UsedIn(all[k]) <= struck
      {
        var k :| k in todo;
        todo := todo - {k};
        var cb := if k == name then c else cookbooks[k];
        m := StrikeCookbook(cb, a, m);
        assert cb == all[k];
        struck := struck + UsedIn(cb);
      }
      assert struck == Used(all);
      ghost var rest := a[..m];
      for i := 0 to m
        invariant a[..m] == rest && files == old(files) - Elements(rest[..i])
      {
        files := files - {a[i]};
        assert rest[..i + 1] == rest[..i] + [rest[i]];
      }
      assert rest[..m] == rest;
    }

    method StoreFile(hash: string)
      modifies this`files
      ensures Snapshot() == After(old(Snapshot()), Store(hash))
    {
      files := files + {hash};
    }

    /** No version is called `_latest`: that name stands for the greatest one. */
    ghost predicate Valid()
      reads this
    {
      forall name :: name in cookbooks ==> "_latest" !in cookbooks[name]
    }

    /** Makes a cookbook without versions and saves it, over one of the same name if there is any. */
    method NewCookbook(name: string) returns (r: Outcome)
      requires Valid()
      modifies this`cookbooks
      ensures Valid() && Snapshot() == After(old(Snapshot()), StartCookbook(name))
      ensures r.Done? <==> forall c :: c in name ==>
        'A' <= c <= 'Z' || 'a' <= c <= 'z' || '0' <= c <= '9' || c == '_' || c == '.' || c == '-'
    {
      SignsOfName(name);
      if !ValidName(name) {
        return Invalid("Malformed cookbook name");
      }
      cookbooks := cookbooks[name := map[]];
      return Done;
    }

    /** Removes a cookbook; its files stay. */
    method DeleteCookbook(name: string)
      requires Valid()
      modifies this`cookbooks
      ensures Valid() && Snapshot() == After(old(Snapshot()), DropCookbook(name))
    {
      cookbooks := cookbooks - {name};
    }

    /** Creates a version of an existing cookbook. */
    method NewVersion(name: string, ver: string, data: Upload) returns (r: Outcome)
      requires Valid() && name in cookbooks && (ver == "_latest" ==> cookbooks[name] != map[])
      modifies this`cookbooks
      ensures Valid() && Snapshot() == After(old(Snapshot()), Create(name, ver, data))
      ensures r.Done? <==> Accepts(old(Snapshot()), Create(name, ver, data))
      ensures r.Conflict? <==> ver == "_latest" || ver in old(cookbooks)[name]
    {
      hide AllPresent, Validated;
      if ver == "_latest" || ver in cookbooks[name] {
        return Conflict;
      }
      if data.error.Some? {
        return Invalid(data.error.value);
      }
      var content := ValidateDivisions(data.content, files);
      if content.None? {
        return Invalid("Manifest has a checksum that hasn't been uploaded.");
      }
      cookbooks := cookbooks[name := cookbooks[name][ver := content.value]];
      return Done;
    }

    /** Replaces the content of an existing version, unless it is frozen and the update is not forced. */
    method UpdateVersion(name: string, ver: string, data: Upload, force: bool) returns (r: Outcome)
      requires Valid() && name in cookbooks && ver in cookbooks[name]
      modifies this`cookbooks, this`files
      ensures Valid() && Snapshot() == After(old(Snapshot()), Update(name, ver, data, force))
      ensures r.Done? <==> Accepts(old(Snapshot()), Update(name, ver, data, force))
      ensures r.Conflict? <==> old(cookbooks)[name][ver].frozen && !force
      ensures forall h :: h in files <==> h in old(files) && (InUse(old(cookbooks), h) ==> InUse(cookbooks, h))
    {
      VersionsStayTidy(Snapshot(), Update(name, ver, data, force));
      hide InUse, Used, HashSet, AllPresent, Validated;
      var was := cookbooks[name][ver];
      if was.frozen && !force {
        return Conflict;
      }
      var fhashes, n := FileHashes(was);
      if data.error.Some? {
        return Invalid(data.error.value);
      }
      var content := ValidateDivisions(data.content, files);
      if content.None? {
        return Invalid("Manifest has a checksum that hasn't been uploaded.");
      }
      var now := Merged(was, content.value);
      var cookbook := cookbooks[name][ver := now];
      if n > 0 {
        DeleteHashes(name, cookbook, fhashes, n);
      } else {
        assert Elements(fhashes[..n]) == {};
      }
      cookbooks := cookbooks[name := cookbook];
      return Done;
    }

    /** The greatest version is found, no version is deleted, and so none of its files is unused. */
    method DeleteNothing(name: string)
      requires Valid() && name in cookbooks && cookbooks[name] != map[]
      modifies this`files
      ensures files == old(files)
    {
      hide HashSet;
      SomeVersion(cookbooks[name]);
      var latest :| latest in cookbooks[name];
      var fhashes, n := FileHashes(cookbooks[name][latest]);
      ghost var c := cookbooks[name];
      assert cookbooks[name := c] == cookbooks;
      ghost var hashes := Elements(fhashes[..n]);
      forall h | h in hashes
        ensures h in Used(cookbooks)
      {
        UsedHas(cookbooks, name, latest, h);
      }
      hide Used;
      DeleteHashes(name, cookbooks[name], fhashes, n);
    }

    /** Deletes a version; `_latest` finds one, but there is nothing to delete under that name. */
    method DeleteVersion(name: string, ver: string) returns (r: Outcome)
      requires Valid() && name in cookbooks && (ver == "_latest" ==> cookbooks[name] != map[])
      modifies this`cookbooks, this`files
      ensures Valid() && Snapshot() == After(old(Snapshot()), Delete(name, ver))
      ensures r == if ver == "_latest" || ver in old(cookbooks)[name] then Done else NotFound
      ensures forall h :: h in files <==> h in old(files) && (InUse(old(cookbooks), h) ==> InUse(cookbooks, h))
    {
      VersionsStayTidy(Snapshot(), Delete(name, ver));
      hide Used, HashSet, InUse;
      if ver == "_latest" {
        DeleteNothing(name);
        return Done;
      }
      if ver !in cookbooks[name] {
        return NotFound;
      }
      var fhashes, n := FileHashes(cookbooks[name][ver]);
      var c := cookbooks[name] - {ver};
      cookbooks := cookbooks[name := c];
      DeleteHashes(name, c, fhashes, n);
      assert Seen(name, c) == cookbooks;
      return Done;
    }
  }

  // ---- What the operations promise ----

  lemma SomeVersion(c: Cookbook)
    ensures c == map[] || exists ver :: ver in c
  {
    if forall ver :: ver !in c {
      assert c == map[];
    }
  }

  lemma UsedHas(cookbooks: map<string, Cookbook>, name: string, ver: string, h: string)
    requires name in cookbooks && ver in cookbooks[name] && h in HashSet(cookbooks[name][ver])
    ensures h in Used(cookbooks)
  {
    assert h in UsedIn(cookbooks[name]);
  }

  lemma UsedBy(cookbooks: map<string, Cookbook>, h: string) returns (name: string, ver: string)
    requires h in Used(cookbooks)
    ensures name in cookbooks && ver in cookbooks[name] && h in HashSet(cookbooks[name][ver])
  {
    name :| name in cookbooks && h in UsedIn(cookbooks[name]);
    ver :| ver in cookbooks[name] && h in HashSet(cookbooks[name][ver]);
  }

  /** The operation takes a whole cookbook away. */
  predicate Clears(op: Op) {
    op.StartCookbook? || op.DropCookbook?
  }

  /** A hash that is no longer used was used by the version the operation replaced. */
  lemma DroppedWasReplaced(w: World, op: Op, h: string)
    requires h in Used(w.cookbooks) && h !in Used(CookbooksAfter(w, op)) && !Clears(op)
    ensures h in Replaced(w, op)
  {
    hide Used, HashSet;
    var name, ver := UsedBy(w.cookbooks, h);
    var now := CookbooksAfter(w, op);
    if name in now && ver in now[name] && now[name][ver] == w.cookbooks[name][ver] {
      UsedHas(now, name, ver, h);
    }
  }

  lemma ReplacedWasUsed(w: World, op: Op, h: string)
    requires h in Replaced(w, op)
    ensures h in Used(w.cookbooks)
  {
    hide Used, HashSet;
    UsedHas(w.cookbooks, op.name, op.ver, h);
  }

  /** A stored file only this cookbook uses. */
  ghost predicate OnlyHere(w: World, name: string) {
    exists h :: OnlyUse(w, name, h)
  }

  ghost predicate OnlyUse(w: World, name: string, h: string) {
    h in w.files && InUse(w.cookbooks, h) && !InUse(w.cookbooks - {name}, h)
  }

  /** A file leaves the store when the operation takes away its last use, and stays otherwise. */
  ghost predicate Tidy(w: World, op: Op) {
    forall h :: h in After(w, op).files <==> TidyAt(w, op, h)
  }

  ghost predicate TidyAt(w: World, op: Op, h: string) {
    (op.Store? && h == op.hash) || (h in w.files && (InUse(w.cookbooks, h) ==> InUse(After(w, op).cookbooks, h)))
  }

  lemma VersionsStayTidy(w: World, op: Op)
    requires !Clears(op)
    ensures Tidy(w, op)
  {
    hide Used, Replaced, InUse;
    forall h
      ensures h in After(w, op).files <==> TidyAt(w, op, h)
    {
      UsedIsInUse(w.cookbooks, h);
      UsedIsInUse(CookbooksAfter(w, op), h);
      if h in Replaced(w, op) {
        ReplacedWasUsed(w, op, h);
      }
      if h in Used(w.cookbooks) - Used(CookbooksAfter(w, op)) {
        DroppedWasReplaced(w, op, h);
      }
    }
  }

  /** Taking a cookbook away leaves the uses of the others. */
  lemma UsesLeft(w: World, op: Op, h: string)
    requires Clears(op) && Accepts(w, op)
    ensures InUse(CookbooksAfter(w, op), h) <==> InUse(w.cookbooks - {op.name}, h)
  {
    hide Mentions;
    var now, others := CookbooksAfter(w, op), w.cookbooks - {op.name};
    if InUse(others, h) {
      var name, ver :| name in others && ver in others[name] && Mentions(others[name][ver], h);
      assert now[name] == others[name];
    }
    if InUse(now, h) {
      var name, ver :| name in now && ver in now[name] && Mentions(now[name][ver], h);
      assert name != op.name && others[name] == now[name];
    }
  }

  lemma ClearedTidyExactly(w: World, op: Op)
    requires Clears(op) && Accepts(w, op)
    ensures Tidy(w, op) <==> !OnlyHere(w, op.name)
  {
    hide Used, InUse, CookbooksAfter;
    assert After(w, op).files == w.files;
    forall h
      ensures (h in After(w, op).files <==> TidyAt(w, op, h)) <==> !OnlyUse(w, op.name, h)
    {
      UsesLeft(w, op, h);
    }
  }

  /** A file leaves the store exactly when the operation takes away its last use, unless a cookbook is dropped or made
      anew while a stored file is used by it alone: that file is left behind. */
  lemma RemovedExactlyWhenUnused(w: World, op: Op)
    ensures Tidy(w, op) <==> !(Clears(op) && Accepts(w, op) && OnlyHere(w, op.name))
  {
    hide Used, InUse;
    if !Clears(op) {
      VersionsStayTidy(w, op);
    } else if Accepts(w, op) {
      ClearedTidyExactly(w, op);
    }
  }

  /** Every used hash has its file. */
  ghost predicate Backed(w: World) {
    forall h :: InUse(w.cookbooks, h) ==> h in w.files
  }

  lemma MergedHashes(was: Version, now: Version)
    ensures HashSet(Merged(was, now)) == HashSet(now)
  {
    assert AllHashes(Merged(was, now)) == AllHashes(now);
  }

  /** What an operation brings into use is stored: an upload that names any other checksum is refused. */
  lemma NewUses(w: World, op: Op, h: string)
    requires h in Used(CookbooksAfter(w, op)) && h !in Used(w.cookbooks)
    ensures h in w.files
  {
    hide Used, AllPresent, Validated, HashSet, Merged;
    var now := CookbooksAfter(w, op);
    var name, ver := UsedBy(now, h);
    if name in w.cookbooks && ver in w.cookbooks[name] && now[name][ver] == w.cookbooks[name][ver] {
      UsedHas(w.cookbooks, name, ver, h);
    } else {
      ValidatedIsStored(op.data.content, w.files);
      if op.Update? {
        MergedHashes(w.cookbooks[op.name][op.ver], Validated(op.data.content));
      }
    }
  }

  lemma StepStaysBacked(w: World, op: Op)
    requires Backed(w)
    ensures Backed(After(w, op))
  {
    hide Used, HashSet, CookbooksAfter, Replaced, InUse;
    forall h | InUse(CookbooksAfter(w, op), h)
      ensures h in w.files && h in Used(CookbooksAfter(w, op))
    {
      UsedIsInUse(w.cookbooks, h);
      UsedIsInUse(CookbooksAfter(w, op), h);
      if h !in Used(w.cookbooks) {
        NewUses(w, op, h);
      }
    }
  }

  /** Over every run of uploads, creations, updates and deletions, no file a remaining version uses is ever missing. */
  lemma {:induction false} RunStaysBacked(w: World, ops: seq<Op>)
    requires Backed(w)
    ensures Backed(RunOf(w, ops))
  {
    hide Backed, After;
    if ops != [] {
      var last := |ops| - 1;
      RunStaysBacked(w, ops[..last]);
      StepStaysBacked(RunOf(w, ops[..last]), ops[last]);
    }
  }

  /** So it is on a server that starts with nothing. */
  lemma AlwaysBacked(ops: seq<Op>)
    ensures Backed(RunOf(World(map[], {}), ops))
  {
    assert Backed(World(map[], {}));
    RunStaysBacked(World(map[], {}), ops);
  }

  // ---- A file that is left behind ----

  function OneFile(h: string): Version {
    Version([], [], [], [Entry(Some(h))], [], [], [], [], [], false)
  }

  /** The file of a dropped cookbook stays, although nothing uses it any more. */
  lemma DroppedLeavesFile()
    ensures var w, op := World(map["apt" := map["1.0.0" := OneFile("f00")]], {"f00"}), DropCookbook("apt");
      !Tidy(w, op) && "f00" in After(w, op).files && !InUse(After(w, op).cookbooks, "f00")
  {
    var w, op := World(map["apt" := map["1.0.0" := OneFile("f00")]], {"f00"}), DropCookbook("apt");
    var v := w.cookbooks["apt"]["1.0.0"];
    assert v.recipes[0].checksum == Some("f00");
    assert Mentions(v, "f00") && InUse(w.cookbooks, "f00");
    assert w.cookbooks - {"apt"} == map[] && CookbooksAfter(w, op) == map[];
    assert OnlyUse(w, "apt", "f00");
    hide InUse, OnlyUse, Tidy;
    RemovedExactlyWhenUnused(w, op);
  }

  // ---- What an operation changes ----

  /** The operation is about this version. */
  predicate Touches(op: Op, name: string, ver: string) {
    match op
    case Store(_) => false
    case StartCookbook(n) => n == name
    case DropCookbook(n) => n == name
    case Create(n, v, _) => n == name && v == ver
    case Update(n, v, _, _) => n == name && v == ver
    case Delete(n, v) => n == name && v == ver
  }

  predicate HasVersion(w: World, name: string, ver: string) {
    name in w.cookbooks && ver in w.cookbooks[name]
  }

  /** Every other version is there exactly if it was, and is what it was. */
  lemma OthersStay(w: World, op: Op, name: string, ver: string)
    requires !Touches(op, name, ver)
    ensures HasVersion(After(w, op), name, ver) <==> HasVersion(w, name, ver)
    ensures HasVersion(w, name, ver) ==> After(w, op).cookbooks[name][ver] == w.cookbooks[name][ver]
  {
    hide Used, AllPresent, Validated;
  }

  lemma KeptIs(a: seq<Entry>, e: Entry)
    ensures Kept([]) == [] && Kept(a + [e]) == Kept(a) + (if e.checksum.Some? then [e] else [])
  {
    assert (a + [e])[..|a|] == a;
  }

  /** An accepted upload is stored division by division, without the entries that have no checksum; once frozen, a
      version stays so. */
  lemma UploadIsStored(w: World, op: Op)
    requires (op.Create? || op.Update?) && Accepts(w, op)
    ensures HasVersion(After(w, op), op.name, op.ver)
    ensures var v, was := op.data.content, After(w, op).cookbooks[op.name][op.ver];
      was.definitions == Kept(v.definitions) && was.libraries == Kept(v.libraries) &&
      was.attributes == Kept(v.attributes) && was.recipes == Kept(v.recipes) && was.providers == Kept(v.providers) &&
      was.resources == Kept(v.resources) && was.templates == Kept(v.templates) && was.rootFiles == Kept(v.rootFiles) &&
      was.files == Kept(v.files)
    ensures After(w, op).cookbooks[op.name][op.ver].frozen <==>
      op.data.content.frozen || (op.Update? && w.cookbooks[op.name][op.ver].frozen)
  {
    hide Used, AllPresent, Kept;
  }

  /** A frozen version is replaced by a forced update only. */
  lemma FrozenStays(w: World, op: Op, name: string, ver: string)
    requires HasVersion(w, name, ver) && w.cookbooks[name][ver].frozen
    requires HasVersion(After(w, op), name, ver) && !(op.Update? && op.force && Touches(op, name, ver))
    ensures After(w, op).cookbooks[name][ver] == w.cookbooks[name][ver]
  {
    hide Used, AllPresent, Validated;
  }

  /** A deleted version is gone, and so are all of a dropped or remade cookbook. */
  lemma TakenAway(w: World, op: Op, name: string, ver: string)
    requires Touches(op, name, ver) && Accepts(w, op) && (op.Delete? || Clears(op))
    ensures !HasVersion(After(w, op), name, ver)
  {
    hide Used;
  }
}
