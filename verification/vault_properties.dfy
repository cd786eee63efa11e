/** The property store: frontmatter lookup by dotted path, local and global
    property lookup with session overrides, path enumeration and search, and
    change detection (src/VaultProperties.ts). */
module VaultProps {
  import opened Wrappers
  import opened Strings
  import opened Values

  /** What the store asks of the host application: the frontmatter of every
      file of the vault by its path (`Undefined` when the metadata cache has
      none) and the active file, if any. */
  datatype App = App(files: map<string, Value>, activeFile: Option<string>)

  /** One step of the dotted walk: the own property `key` of an object or
      array, or undefined for anything else. */
  function Step(acc: Value, key: string): (r: Value)
    ensures !(acc.Obj? || acc.Arr?) ==> r == Undefined
  {
    if acc.Obj? || acc.Arr? then Member(acc, key) else Undefined
  }

  /** The left fold of `Step` over `keys`. */
  function Walk(acc: Value, keys: seq<string>): Value
    decreases |keys|
  {
    if |keys| == 0 then acc else Walk(Step(acc, keys[0]), keys[1..])
  }

  /** `getValueByPath(obj, path)`: undefined for a falsy object or an empty
      path, otherwise the walk over the '.'-separated keys. */
  function GetValueByPath(obj: Value, path: string): (r: Value)
    ensures Falsy(obj) || path == "" ==> r == Undefined
    ensures !Falsy(obj) && path != "" && '.' !in path ==> r == Step(obj, path)
  {
    if Falsy(obj) || path == "" then Undefined
    else
      if '.' !in path then
        SplitWithoutSeparator(path, '.');
        assert Walk(obj, [path]) == Walk(Step(obj, path), []);
        Walk(obj, Split(path, '.'))
      else Walk(obj, Split(path, '.'))
  }

  lemma {:induction false} WalkUndefined(keys: seq<string>)
    ensures Walk(Undefined, keys) == Undefined
  {
    if |keys| > 0 { WalkUndefined(keys[1..]); }
  }

  lemma {:induction false} WalkConcat(acc: Value, a: seq<string>, b: seq<string>)
    ensures Walk(acc, a + b) == Walk(Walk(acc, a), b)
    decreases |a|
  {
    if |a| > 0 {
      assert (a + b)[0] == a[0] && (a + b)[1..] == a[1..] + b;
      WalkConcat(Step(acc, a[0]), a[1..], b);
    } else {
      assert a + b == b;
    }
  }

  /** A key that is missing anywhere along the walk makes the whole lookup undefined. */
  lemma {:induction false} WalkMissingKey(acc: Value, keys: seq<string>, k: nat)
    requires k < |keys|
    requires Step(Walk(acc, keys[..k]), keys[k]) == Undefined
    ensures Walk(acc, keys) == Undefined
  {
    assert keys == keys[..k] + [keys[k]] + keys[k + 1..];
    var rest := [keys[k]] + keys[k + 1..];
    assert keys == keys[..k] + rest;
    WalkConcat(acc, keys[..k], rest);
    assert rest[0] == keys[k] && rest[1..] == keys[k + 1..];
    WalkUndefined(keys[k + 1..]);
  }

  /** A dotted path resolves one segment at a time:
      getValueByPath(o, p + "." + q) == getValueByPath(getValueByPath(o, p), q). */
  lemma GetValueByPathCompose(obj: Value, p: string, q: string)
    requires p != "" && q != ""
    ensures GetValueByPath(obj, p + "." + q) == GetValueByPath(GetValueByPath(obj, p), q)
  {
    if !Falsy(obj) {
      SplitConcat(p, q, '.');
      WalkConcat(obj, Split(p, '.'), Split(q, '.'));
      var mid := Walk(obj, Split(p, '.'));
      if Falsy(mid) {
        var ks := Split(q, '.');
        WalkUndefined(ks[1..]);
      }
    }
  }

  /** The path of a file inside the directory tree, one '/'-separated folder
      or file name per level. */
  function LocateDocument(tree: Value, filePath: string): (r: Value)
  {
    Walk(tree, Split(filePath, '/'))
  }

  /** The document a chain of folder names leads to is found by the joined path. */
  lemma LocateDocumentByNames(tree: Value, names: seq<string>)
    requires |names| > 0
    requires forall i :: 0 <= i < |names| ==> '/' !in names[i]
    ensures LocateDocument(tree, Join(names, '/')) == Walk(tree, names)
  {
    SplitJoin(names, '/');
  }

  /** `updateProperties` as written: the active file's path is looked up with
      the dotted `getValueByPath`, which splits "note.md" into "note" and "md". */
  function LocalPropertiesAsWritten(tree: Value, filePath: string): Value {
    GetValueByPath(tree, filePath)
  }

  /** A vault whose root holds one file named `stem.ext` (say "note.md"), with
      any frontmatter: the lookup as written splits the name at its dot and
      misses the document. */
  lemma AsWrittenMissesDocument(stem: string, ext: string, fm: Value)
    requires '.' !in stem && '.' !in ext
    ensures var name := stem + "." + ext;
            LocalPropertiesAsWritten(Obj([Field(name, fm)]), name) == Undefined
  {
    var name := stem + "." + ext;
    var tree := Obj([Field(name, fm)]);
    DottedName(stem, ext);
    assert |name| != |stem|;
    assert Step(tree, stem) == Undefined;
    WalkUndefined([ext]);
  }

  /** So `updateProperties` on that note leaves it without local keys,
      whatever its frontmatter holds. */
  lemma AsWrittenNoLocalKeys(stem: string, ext: string, fm: Value)
    requires '.' !in stem && '.' !in ext
    ensures var name := stem + "." + ext;
            AllPaths(LocalPropertiesAsWritten(Obj([Field(name, fm)]), name), "", true) == []
  {
    AsWrittenMissesDocument(stem, ext, fm);
  }

  /** In the same vault the corrected lookup finds the document's frontmatter. */
  lemma CorrectedFindsDocument(stem: string, ext: string, fm: Value)
    requires '/' !in stem && '/' !in ext
    ensures var name := stem + "." + ext;
            LocateDocument(Obj([Field(name, fm)]), name) == fm
  {
    var name := stem + "." + ext;
    var tree := Obj([Field(name, fm)]);
    assert '/' !in name by {
      forall i | 0 <= i < |name| ensures name[i] != '/' {
        if i < |stem| { assert name[i] == stem[i]; }
        else if i > |stem| { assert name[i] == ext[i - |stem| - 1]; }
      }
    }
    SplitWithoutSeparator(name, '/');
    assert Walk(tree, [name]) == Walk(Step(tree, name), []);
  }

  /** A file name with one dot splits into its stem and its extension. */
  lemma DottedName(name: string, ext: string)
    requires '.' !in name && '.' !in ext
    ensures Split(name + "." + ext, '.') == [name, ext]
  {
    SplitConcat(name, ext, '.');
    SplitWithoutSeparator(name, '.');
    SplitWithoutSeparator(ext, '.');
  }

  /** The separator `getAllPaths` puts between a parent path and a key. */
  function Separator(parent: string, local: bool): char {
    if Contains(parent, ".md/") || local then '.' else '/'
  }

  /** The path of `key` under `parent` (just `key` under the empty path). */
  function FullPath(parent: string, key: string, local: bool): string {
    if parent != "" then parent + [Separator(parent, local)] + key else key
  }

  /** The specification of `getAllPaths(v, parent, local)`: for each entry in
      order, its own path followed by the paths below it. */
  function AllPaths(v: Value, parent: string, local: bool): seq<string>
    decreases v, 1, 0
  {
    AllPathsUpTo(v, |Entries(v)|, parent, local)
  }

  /** The paths of the first `n` entries of `v`. */
  function AllPathsUpTo(v: Value, n: nat, parent: string, local: bool): seq<string>
    requires n <= |Entries(v)|
    decreases v, 0, n
  {
    if n == 0 then []
    else
      var e := Entries(v)[n - 1];
      var full := FullPath(parent, e.key, local);
      AllPathsUpTo(v, n - 1, parent, local) + [full]
        + (if IsObjectType(e.val) then AllPaths(e.val, full, local) else [])
  }

  /** Reference enumeration: the key chains from `v` to every entry below it,
      each entry before the entries below it. */
  function Chains(v: Value): seq<seq<string>>
    decreases v, 1, 0
  {
    ChainsUpTo(v, |Entries(v)|)
  }

  function ChainsUpTo(v: Value, n: nat): seq<seq<string>>
    requires n <= |Entries(v)|
    decreases v, 0, n
  {
    if n == 0 then []
    else
      var e := Entries(v)[n - 1];
      ChainsUpTo(v, n - 1) + [[e.key]]
        + (if IsObjectType(e.val) then PrefixAll(e.key, Chains(e.val)) else [])
  }

  function PrefixAll(k: string, cs: seq<seq<string>>): (r: seq<seq<string>>)
    ensures |r| == |cs|
    ensures forall i :: 0 <= i < |cs| ==> r[i] == [k] + cs[i]
  {
    if |cs| == 0 then [] else [[k] + cs[0]] + PrefixAll(k, cs[1..])
  }

  /** The path a key chain gets under `parent`, one `FullPath` step per key. */
  function JoinChain(parent: string, chain: seq<string>, local: bool): string
    decreases |chain|
  {
    if |chain| == 0 then parent else JoinChain(FullPath(parent, chain[0], local), chain[1..], local)
  }

  function JoinChains(parent: string, cs: seq<seq<string>>, local: bool): (r: seq<string>)
    ensures |r| == |cs|
    ensures forall i :: 0 <= i < |cs| ==> r[i] == JoinChain(parent, cs[i], local)
  {
    if |cs| == 0 then [] else [JoinChain(parent, cs[0], local)] + JoinChains(parent, cs[1..], local)
  }

  lemma JoinChainsConcat(parent: string, a: seq<seq<string>>, b: seq<seq<string>>, local: bool)
    ensures JoinChains(parent, a + b, local) == JoinChains(parent, a, local) + JoinChains(parent, b, local)
  {
  }

  lemma JoinChainsPrefix(parent: string, k: string, cs: seq<seq<string>>, local: bool)
    ensures JoinChains(parent, PrefixAll(k, cs), local) == JoinChains(FullPath(parent, k, local), cs, local)
  {
    var l := JoinChains(parent, PrefixAll(k, cs), local);
    var r := JoinChains(FullPath(parent, k, local), cs, local);
    forall i | 0 <= i < |cs| ensures l[i] == r[i] {
      assert ([k] + cs[i])[1..] == cs[i];
    }
  }

  /** `getAllPaths` lists, in pre-order, one path per entry of the tree: the
      path its key chain gets when joined step by step. */
  lemma {:induction false} AllPathsAreJoinedChains(v: Value, parent: string, local: bool)
    ensures AllPaths(v, parent, local) == JoinChains(parent, Chains(v), local)
    decreases v, 1, 0
  {
    AllPathsUpToAreJoinedChains(v, |Entries(v)|, parent, local);
  }

  lemma {:induction false} AllPathsUpToAreJoinedChains(v: Value, n: nat, parent: string, local: bool)
    requires n <= |Entries(v)|
    ensures AllPathsUpTo(v, n, parent, local) == JoinChains(parent, ChainsUpTo(v, n), local)
    decreases v, 0, n
  {
    if n > 0 {
      var e := Entries(v)[n - 1];
      var full := FullPath(parent, e.key, local);
      AllPathsUpToAreJoinedChains(v, n - 1, parent, local);
      var below := if IsObjectType(e.val) then PrefixAll(e.key, Chains(e.val)) else [];
      JoinChainsConcat(parent, ChainsUpTo(v, n - 1) + [[e.key]], below, local);
      JoinChainsConcat(parent, ChainsUpTo(v, n - 1), [[e.key]], local);
      assert JoinChain(parent, [e.key], local) == JoinChain(full, [], local);
      assert JoinChains(parent, [[e.key]], local) == [full];
      if IsObjectType(e.val) {
        AllPathsAreJoinedChains(e.val, full, local);
        JoinChainsPrefix(parent, e.key, Chains(e.val), local);
        assert AllPathsUpTo(v, n, parent, local)
            == AllPathsUpTo(v, n - 1, parent, local) + [full] + AllPaths(e.val, full, local);
        assert ChainsUpTo(v, n) == ChainsUpTo(v, n - 1) + [[e.key]] + below;
      } else {
        assert ChainsUpTo(v, n) == ChainsUpTo(v, n - 1) + [[e.key]] + below;
      }
    }
  }

  /** Every chain of the reference enumeration is non-empty. */
  lemma {:induction false} ChainsNonEmpty(v: Value)
    ensures forall i :: 0 <= i < |Chains(v)| ==> |Chains(v)[i]| > 0
    decreases v, 1, 0
  {
    ChainsUpToNonEmpty(v, |Entries(v)|);
  }

  lemma {:induction false} ChainsUpToNonEmpty(v: Value, n: nat)
    requires n <= |Entries(v)|
    ensures forall i :: 0 <= i < |ChainsUpTo(v, n)| ==> |ChainsUpTo(v, n)[i]| > 0
    decreases v, 0, n
  {
    if n > 0 {
      ChainsUpToNonEmpty(v, n - 1);
      var e := Entries(v)[n - 1];
      if IsObjectType(e.val) { ChainsNonEmpty(e.val); }
    }
  }

  lemma ContainsExtended(s: string, t: string, p: string)
    requires Contains(s, p)
    ensures Contains(s + t, p)
  {
    var k := FindFrom(s, p, 0);
    assert (s + t)[k..k + |p|] == s[k..k + |p|];
    ContainsAt(s + t, p, k);
  }

  /** With `local`, every join uses '.': a chain under a non-empty parent is
      that parent, '.', and the chain's keys joined by '.'. */
  lemma {:induction false} LocalChainUsesDots(parent: string, chain: seq<string>)
    requires parent != "" && |chain| > 0
    ensures JoinChain(parent, chain, true) == parent + "." + Join(chain, '.')
    decreases |chain|
  {
    if |chain| > 1 {
      LocalChainUsesDots(parent + "." + chain[0], chain[1..]);
    }
  }

  /** Once the parent path is inside a document (it contains ".md/"), the
      global enumeration joins exactly like the local one, with '.'. */
  lemma {:induction false} InsideDocumentUsesDots(parent: string, chain: seq<string>)
    requires Contains(parent, ".md/")
    ensures JoinChain(parent, chain, false) == JoinChain(parent, chain, true)
    decreases |chain|
  {
    if |chain| > 0 {
      ContainsExtended(parent, [Separator(parent, false)] + chain[0], ".md/");
      assert parent + [Separator(parent, false)] + chain[0] == parent + ([Separator(parent, false)] + chain[0]);
      InsideDocumentUsesDots(FullPath(parent, chain[0], false), chain[1..]);
    }
  }

  /** Outside a document the global enumeration joins a folder and its child with '/'. */
  lemma FolderChildUsesSlash(parent: string, key: string)
    requires parent != "" && !Contains(parent, ".md/")
    ensures FullPath(parent, key, false) == parent + "/" + key
  {
  }

  /** The entries of `s` that `keep` accepts, in their order. */
  function Filter(s: seq<string>, keep: string -> bool): (r: seq<string>)
    ensures |r| <= |s|
    ensures forall i :: 0 <= i < |r| ==> keep(r[i])
    ensures forall x :: multiset(r)[x] == if keep(x) then multiset(s)[x] else 0
  {
    if |s| == 0 then []
    else
      var rest := Filter(s[1..], keep);
      assert s == [s[0]] + s[1..];
      if keep(s[0]) then [s[0]] + rest else rest
  }

  /** `keys.filter(keep)` on a key list that may still be undefined, where
      calling `filter` throws. */
  function FilterKeys(keys: Option<seq<string>>, keep: string -> bool): (r: Result<Option<seq<string>>, string>)
    ensures r.Failure? <==> keys.None?
    ensures keys.Some? ==> r == Success(Some(Filter(keys.value, keep)))
  {
    match keys
    case None => Failure("TypeError: Cannot read properties of undefined (reading 'filter')")
    case Some(ks) => Success(Some(Filter(ks, keep)))
  }

  /** `sub` is `s` with some entries left out, the rest in their order. */
  predicate IsSubsequence(sub: seq<string>, s: seq<string>) {
    if |sub| == 0 then true
    else if |s| == 0 then false
    else if sub[0] == s[0] then IsSubsequence(sub[1..], s[1..])
    else IsSubsequence(sub, s[1..])
  }

  lemma {:induction false} IsSubsequenceDrop(sub: seq<string>, s: seq<string>)
    requires |s| > 0 && IsSubsequence(sub, s[1..])
    ensures IsSubsequence(sub, s)
    decreases |s|, 0
  {
    if |sub| > 0 && sub[0] == s[0] {
      IsSubsequenceTail(sub, s[1..]);
    }
  }

  lemma {:induction false} IsSubsequenceTail(sub: seq<string>, t: seq<string>)
    requires |sub| > 0 && IsSubsequence(sub, t)
    ensures IsSubsequence(sub[1..], t)
    decreases |t|, 1
  {
    if sub[0] == t[0] {
      if |sub[1..]| > 0 { IsSubsequenceDrop(sub[1..], t); }
    } else {
      IsSubsequenceTail(sub, t[1..]);
      if |sub[1..]| > 0 { IsSubsequenceDrop(sub[1..], t); }
    }
  }

  /** The filtered list keeps the order of the original. */
  lemma {:induction false} FilterIsSubsequence(s: seq<string>, keep: string -> bool)
    ensures IsSubsequence(Filter(s, keep), s)
  {
    if |s| > 0 {
      FilterIsSubsequence(s[1..], keep);
      if !keep(s[0]) && |Filter(s[1..], keep)| > 0 {
        IsSubsequenceDrop(Filter(s[1..], keep), s);
      }
    }
  }

  /** The store, with the fields `VaultProperties` updates. */
  class VaultProperties {
    var app: App
    var properties: Value
    var localProperties: Value
    /** The two key lists are never assigned before the first
        `updateLocalKeysAndAllVariableKeys`: `None` is that undefined state. */
    var localKeys: Option<seq<string>>
    var localKeysAndAllVariableKeys: Option<seq<string>>
    var temporaryVariables: map<string, Value>

    /** `tree` is what the directory walk built (the walk itself is file-system I/O). */
    constructor (app: App, tree: Value)
      ensures this.app == app && properties == tree && localProperties == Undefined
      ensures localKeys.None? && localKeysAndAllVariableKeys.None? && temporaryVariables == map[]
    {
      this.app := app;
      properties := tree;
      localProperties := Undefined;
      localKeys := None;
      localKeysAndAllVariableKeys := None;
      temporaryVariables := map[];
    }

    /** `getProperty(path)`: a session override wins; without an active file
        nothing resolves; a path holding '/' names a file (the text before the
        first '/') and one property path (the text up to the next '/'); any
        other path is looked up in the active file's frontmatter. */
    function GetProperty(path: string): (r: Value)
      reads this
      ensures path in temporaryVariables ==> r == temporaryVariables[path]
      ensures path !in temporaryVariables && app.activeFile.None? ==> r == Undefined
      ensures path !in temporaryVariables && app.activeFile.Some? && '/' in path ==>
                var k := IndexOf(path, '/');
                var rest := path[k + 1..];
                var m := IndexOf(rest, '/');
                var file := path[..k];
                var prop := if m == -1 then rest else rest[..m];
                r == if file in app.files && !Falsy(app.files[file]) then GetValueByPath(app.files[file], prop) else Undefined
      ensures path !in temporaryVariables && app.activeFile.Some? && '/' !in path ==>
                var active := app.activeFile.value;
                r == if active in app.files && !Falsy(app.files[active]) then GetValueByPath(app.files[active], path) else Undefined
    {
      if path in temporaryVariables then temporaryVariables[path]
      else if app.activeFile.None? then Undefined
      else if '/' in path then
        var parts := Split(path, '/');
        SplitFirstPieces(path);
        var file := parts[0];
        if file !in app.files then Undefined
        else
          var frontmatter := app.files[file];
          if Falsy(frontmatter) then Undefined else GetValueByPath(frontmatter, parts[1])
      else
        var active := app.activeFile.value;
        if active !in app.files then Undefined
        else
          var frontmatter := app.files[active];
          if Falsy(frontmatter) then Undefined else GetValueByPath(frontmatter, path)
    }

    /** `temporaryUpdateVariable(path, value)`: a session-only override. */
    method TemporaryUpdateVariable(path: string, value: Value)
      modifies this
      ensures temporaryVariables == old(temporaryVariables)[path := value]
      ensures app == old(app) && properties == old(properties) && localProperties == old(localProperties)
      ensures localKeys == old(localKeys) && localKeysAndAllVariableKeys == old(localKeysAndAllVariableKeys)
      ensures GetProperty(path) == value
      ensures forall q :: q != path ==> GetProperty(q) == old(GetProperty(q))
    {
      temporaryVariables := temporaryVariables[path := value];
    }

    /** `getAllPaths(v, parent, local)`. */
    static method GetAllPaths(v: Value, parent: string, local: bool) returns (paths: seq<string>)
      ensures paths == AllPaths(v, parent, local)
      decreases v
    {
      var isNestedProperty := Contains(parent, ".md/") || local;
      var separator := if isNestedProperty then '.' else '/';
      var entries := Entries(v);
      paths := [];
      var i := 0;
      while i < |entries|
        invariant 0 <= i <= |entries|
        invariant paths == AllPathsUpTo(v, i, parent, local)
      {
        var key := entries[i].key;
        var value := entries[i].val;
        var fullPath := if parent != "" then parent + [separator] + key else key;
        paths := paths + [fullPath];
        if IsObjectType(value) {
          var below := GetAllPaths(value, fullPath, local);
          paths := paths + below;
        }
        i := i + 1;
      }
    }

    /** `updateLocalKeysAndAllVariableKeys()`: the local keys, then the local
        keys followed by every global path. */
    method UpdateLocalKeysAndAllVariableKeys()
      modifies this
      ensures localKeys == Some(AllPaths(old(localProperties), "", true))
      ensures localKeysAndAllVariableKeys == Some(localKeys.value + AllPaths(old(properties), "", false))
      ensures app == old(app) && properties == old(properties) && localProperties == old(localProperties)
      ensures temporaryVariables == old(temporaryVariables)
    {
      var keys := GetAllPaths(localProperties, "", true);
      localKeys := Some(keys);
      var globalPaths := GetAllPaths(properties, "", false);
      localKeysAndAllVariableKeys := Some(keys + globalPaths);
    }

    /** `updateProperties(file)`: `tree` is the rebuilt directory tree, and
        the active file is looked up in it with the dotted `getValueByPath`,
        as written (`LocateDocument` is the lookup the tree's layout calls for). */
    method UpdateProperties(tree: Value, filePath: string)
      modifies this
      ensures properties == tree && localProperties == LocalPropertiesAsWritten(tree, filePath)
      ensures localKeys == Some(AllPaths(localProperties, "", true))
      ensures localKeysAndAllVariableKeys == Some(localKeys.value + AllPaths(tree, "", false))
      ensures app == old(app) && temporaryVariables == old(temporaryVariables)
    {
      properties := tree;
      localProperties := LocalPropertiesAsWritten(tree, filePath);
      UpdateLocalKeysAndAllVariableKeys();
    }

    /** `findLocalPathsContaining(search)`. */
    function FindLocalPathsContaining(search: string): (r: Result<Option<seq<string>>, string>)
      reads this
      ensures search == "" ==> r == Success(localKeys)
      ensures search != "" ==> r == FilterKeys(localKeys, (p: string) => Contains(p, search))
    {
      if |search| == 0 then Success(localKeys) else FilterKeys(localKeys, (p: string) => Contains(p, search))
    }

    /** `findPathsContaining(search)`. */
    function FindPathsContaining(search: string): (r: Result<Option<seq<string>>, string>)
      reads this
      ensures search == "" ==> r == Success(localKeysAndAllVariableKeys)
      ensures search != "" ==> r == FilterKeys(localKeysAndAllVariableKeys, (p: string) => Contains(p, search))
    {
      if |search| == 0 then Success(localKeysAndAllVariableKeys)
      else FilterKeys(localKeysAndAllVariableKeys, (p: string) => Contains(p, search))
    }

    /** `findPathsStartingWith(search)`. */
    function FindPathsStartingWith(search: string): (r: Result<Option<seq<string>>, string>)
      reads this
      ensures search == "" ==> r == Success(localKeysAndAllVariableKeys)
      ensures search != "" ==> r == FilterKeys(localKeysAndAllVariableKeys, (p: string) => StartsWith(p, search))
    {
      if |search| == 0 then Success(localKeysAndAllVariableKeys)
      else FilterKeys(localKeysAndAllVariableKeys, (p: string) => StartsWith(p, search))
    }

    /** `propertyChanged(newProperties)`. */
    method PropertyChanged(newProperties: Value, h: Host) returns (changed: bool)
      ensures changed <==> Changed(localProperties, newProperties, h)
    {
      var current := Entries(localProperties);
      var incoming := Entries(newProperties);
      if |current| != |incoming| {
        return true;
      }
      var i := 0;
      while i < |incoming|
        invariant 0 <= i <= |incoming|
        invariant forall j :: 0 <= j < i ==> !DiffersAt(localProperties, incoming, j, h)
      {
        if IsObjectType(localProperties) {
          var currentPropVal := Member(localProperties, incoming[i].key);
          if h.json(currentPropVal) != h.json(incoming[i].val) {
            assert DiffersAt(localProperties, incoming, i, h);
            return true;
          }
        }
        i := i + 1;
      }
      return false;
    }
  }

  /** The `i`-th new entry serialises differently from the current value of its key. */
  predicate DiffersAt(current: Value, incoming: seq<Field>, i: nat, h: Host)
    requires i < |incoming|
  {
    IsObjectType(current) && h.json(Member(current, incoming[i].key)) != h.json(incoming[i].val)
  }

  /** The two snapshots differ: a different number of entries, or (when the
      current properties are of object type) some new entry whose value
      serialises differently from the current value of its key. */
  predicate Changed(current: Value, next: Value, h: Host) {
    var incoming := Entries(next);
    |Entries(current)| != |incoming| || exists i :: 0 <= i < |incoming| && DiffersAt(current, incoming, i, h)
  }

  /** A frontmatter snapshot identical to the current properties is no change. */
  lemma SameSnapshotUnchanged(v: Value, h: Host)
    requires v.Obj? && UniqueKeys(v.fields)
    ensures !Changed(v, v, h)
  {
    forall i | 0 <= i < |v.fields| ensures !DiffersAt(v, v.fields, i, h) {
      FindFieldUnique(v.fields, i);
    }
  }

  /** The first two pieces of `path.split('/')`, by index. */
  lemma SplitFirstPieces(path: string)
    requires '/' in path
    ensures var parts := Split(path, '/');
            var k := IndexOf(path, '/');
            var rest := path[k + 1..];
            var m := IndexOf(rest, '/');
            |parts| >= 2 && parts[0] == path[..k]
            && parts[1] == if m == -1 then rest else rest[..m]
  {
    var k := IndexOf(path, '/');
    SplitAtFirst(path, '/');
    SplitHead(path[k + 1..], '/');
  }
}
