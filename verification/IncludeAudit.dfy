/** The include audit: which service headers no retained file can reach through its includes. What
    the include patterns find in a file, and path normalisation, are parameters. */
module IncludeAudit {
  import opened Bytes

  const P4_V3: string := "core/soc/esp32p4/register/hw_ver3/"
  const PRIVATE_SERVICES: string := "core/esp_hw_support/include/esp_private/"
  const SERVICE_HEADERS: set<string> :=
    {"core/esp_hw_support/include/clk_ctrl_os.h", "core/esp_hw_support/include/esp_sleep.h"}
  const PRESERVED_PRIVATE_HEADERS: set<string> := {"core/esp_hw_support/include/esp_private/regdma_link.h"}
  const MARKERS: seq<string> := ["include/", "register/", "hw_ver1/"]

  predicate StartsWith(s: string, p: string): (r: bool)
    ensures r <==> exists rest :: s == p + rest
  {
    if |p| <= |s| && s[..|p|] == p then assert s == p + s[|p|..]; true else false
  }

  predicate IsService(name: string) {
    (StartsWith(name, PRIVATE_SERVICES) || name in SERVICE_HEADERS) && name !in PRESERVED_PRIVATE_HEADERS
  }

  function Services(files: set<string>): set<string> { set name | name in files && IsService(name) }

  function Supported(files: set<string>): set<string> { set name | name in files && !StartsWith(name, P4_V3) }

  lemma CharAt(s: string, p: string, i: nat)
    requires StartsWith(s, p) && i < |p|
    ensures i < |s| && s[i] == p[i]
  {
    assert s[..|p|][i] == p[i];
  }

  lemma SixthChar(name: string)
    ensures StartsWith(name, P4_V3) ==> |name| > 5 && name[5] == 's'
    ensures IsService(name) ==> |name| > 5 && name[5] == 'e'
  {
    if StartsWith(name, P4_V3) { CharAt(name, P4_V3, 5); }
    if StartsWith(name, PRIVATE_SERVICES) { CharAt(name, PRIVATE_SERVICES, 5); }
  }

  /** No service header is one of the unsupported registers. */
  lemma ServicesSupported(files: set<string>)
    ensures Services(files) <= Supported(files)
  {
    forall name | name in Services(files)
      ensures name in Supported(files)
    {
      SixthChar(name);
    }
  }

  // ---------------------------------------------------------------------------------------------
  // The index

  predicate Occurs(s: string, m: string, i: nat) { i + |m| <= |s| && s[i..i + |m|] == m }

  /** Where `m` first occurs in `s`, from `i` on. */
  function Find(s: string, m: string, i: nat): (r: Option<nat>)
    ensures r.Some? ==> i <= r.value && Occurs(s, m, r.value) && forall j :: i <= j < r.value ==> !Occurs(s, m, j)
    ensures r.None? ==> forall j :: i <= j ==> !Occurs(s, m, j)
    decreases |s| - i
  {
    if i + |m| > |s| then None else if Occurs(s, m, i) then Some(i) else Find(s, m, i + 1)
  }

  /** Where a character first occurs from `i` on, or the length. */
  function FindChar(s: string, c: char, i: nat): (k: nat)
    requires i <= |s|
    ensures i <= k <= |s| && (k < |s| ==> s[k] == c) && forall j :: i <= j < k ==> s[j] != c
    decreases |s| - i
  {
    if i == |s| || s[i] == c then i else FindChar(s, c, i + 1)
  }

  /** The part of a path behind its last slash. */
  function BaseName(s: string): string
    decreases |s|
  {
    var at := FindChar(s, '/', 0);
    if at == |s| then s else BaseName(s[at + 1..])
  }

  lemma {:induction false} BaseNameIsLast(s: string) returns (k: nat)
    ensures k <= |s| && BaseName(s) == s[k..] && '/' !in s[k..] && (k > 0 ==> s[k - 1] == '/')
    decreases |s|
  {
    var at := FindChar(s, '/', 0);
    if at == |s| {
      k := 0;
      assert s[0..] == s;
    } else {
      var rest := BaseNameIsLast(s[at + 1..]);
      k := at + 1 + rest;
      assert s[at + 1..][rest..] == s[k..];
    }
  }

  /** The part of a path behind the first occurrence of a marker. */
  function Behind(name: string, marker: string): Option<string> {
    var at := Find(name, marker, 0);
    if at.None? then None else Some(name[at.value + |marker|..])
  }

  /** A base name, and the parts of a path behind its first `n` markers. */
  function Spellings(base: string, name: string, markers: seq<string>, n: nat): set<string>
    requires n <= |markers|
  {
    if n == 0 then {base}
    else
      var rest := Behind(name, markers[n - 1]);
      Spellings(base, name, markers, n - 1) + if rest.Some? then {rest.value} else {}
  }

  /** The spellings under which a file can be included. */
  function Keys(name: string): set<string> { Spellings(BaseName(name), name, MARKERS, |MARKERS|) }

  // What the spellings of a path are, said on the path itself.

  /** `k` is a path's last part: behind a slash, or the whole path, and without a slash. */
  ghost predicate IsLastPart(name: string, k: string) {
    '/' !in k && (name == k || exists p :: name == p + "/" + k)
  }

  /** The first occurrence of `m` in `name` splits it into `p` and `k`. */
  ghost predicate SplitsAt(name: string, p: string, m: string, k: string) {
    name == p + m + k && forall j :: 0 <= j < |p| ==> !Occurs(name, m, j)
  }

  ghost predicate Spells(name: string, k: string) {
    IsLastPart(name, k) || exists p, m :: m in {"include/", "register/", "hw_ver1/"} && SplitsAt(name, p, m, k)
  }

  lemma LastSlash(s: string, k: string, l: string)
    requires |k| <= |l| <= |s| && s[|s| - |k|..] == k && s[|s| - |l|..] == l
    requires '/' !in l && (|k| < |s| ==> s[|s| - |k| - 1] == '/')
    ensures k == l
  {
    assert forall i :: 0 <= i < |l| ==> l[i] == s[|s| - |l| + i];
  }

  lemma BaseNameExact(name: string, k: string)
    ensures BaseName(name) == k <==> IsLastPart(name, k)
  {
    var at := BaseNameIsLast(name);
    var base := BaseName(name);
    if at > 0 { assert name == name[..at - 1] + "/" + base; }
    if IsLastPart(name, k) {
      LastPartStands(name, k);
      if |k| <= |base| { LastSlash(name, k, base); } else { LastSlash(name, base, k); }
    }
  }

  lemma LastPartStands(name: string, k: string)
    requires IsLastPart(name, k)
    ensures |k| <= |name| && name[|name| - |k|..] == k && (|k| < |name| ==> name[|name| - |k| - 1] == '/')
  {
    if name != k {
      var p :| name == p + "/" + k;
      assert name[|p|] == '/';
    }
  }

  lemma BehindExact(name: string, m: string, k: string)
    ensures Behind(name, m) == Some(k) <==> exists p :: SplitsAt(name, p, m, k)
  {
    var at := Find(name, m, 0);
    if at.Some? && name[at.value + |m|..] == k {
      assert name == name[..at.value] + name[at.value..at.value + |m|] + name[at.value + |m|..];
      assert SplitsAt(name, name[..at.value], m, k);
    }
    if p :| SplitsAt(name, p, m, k) {
      assert name[|p|..|p| + |m|] == m && name[|p| + |m|..] == k;
      assert Occurs(name, m, |p|);
      assert at.Some? && at.value == |p|;
    }
  }

  lemma {:induction false} SpellingsExact(base: string, name: string, markers: seq<string>, n: nat, k: string)
    requires n <= |markers|
    ensures k in Spellings(base, name, markers, n)
            <==> k == base || exists i :: 0 <= i < n && Behind(name, markers[i]) == Some(k)
  {
    if n > 0 { SpellingsExact(base, name, markers, n - 1, k); }
  }

  /** A key names a file exactly when it is the last part of its path, or the part behind the first
      occurrence of a marker. */
  lemma KeysExact(name: string, k: string)
    ensures k in Keys(name) <==> Spells(name, k)
  {
    SpellingsExact(BaseName(name), name, MARKERS, |MARKERS|, k);
    BaseNameExact(name, k);
    BehindExact(name, "include/", k);
    BehindExact(name, "register/", k);
    BehindExact(name, "hw_ver1/", k);
    MarkersAre();
  }

  lemma MarkersAre()
    ensures |MARKERS| == 3 && MARKERS[0] == "include/" && MARKERS[1] == "register/" && MARKERS[2] == "hw_ver1/"
  {
  }

  function Matches(supported: set<string>, spelling: string): set<string> {
    set name | name in supported && spelling in Keys(name)
  }

  type Index = map<string, set<string>>

  function Get(index: Index, key: string): set<string> { if key in index then index[key] else {} }

  function Add(index: Index, key: string, name: string): Index { index[key := Get(index, key) + {name}] }

  /** `r` is `index` with `name` entered under `keys`. */
  ghost predicate Entered(index: Index, r: Index, name: string, keys: set<string>) {
    forall k :: Get(r, k) == Get(index, k) + if k in keys then {name} else {}
  }

  lemma EnteredStep(index: Index, r: Index, name: string, keys: set<string>, key: string)
    requires Entered(index, r, name, keys)
    ensures Entered(index, Add(r, key, name), name, keys + {key})
  {
    forall k
      ensures Get(Add(r, key, name), k) == Get(index, k) + if k in keys + {key} then {name} else {}
    {
      assert Get(r, k) == Get(index, k) + if k in keys then {name} else {};
    }
  }

  /** Enters a file under its part behind one marker, if it has one. */
  method AddBehind(index: Index, r: Index, base: string, name: string, markers: seq<string>, i: nat) returns (r': Index)
    requires i < |markers| && Entered(index, r, name, Spellings(base, name, markers, i))
    ensures Entered(index, r', name, Spellings(base, name, markers, i + 1))
  {
    var rest := Behind(name, markers[i]);
    if rest.Some? {
      EnteredStep(index, r, name, Spellings(base, name, markers, i), rest.value);
      r' := Add(r, rest.value, name);
    } else {
      assert Spellings(base, name, markers, i) + {} == Spellings(base, name, markers, i);
      r' := r;
    }
  }

  lemma EnteredOne(index: Index, base: string, name: string, markers: seq<string>)
    ensures Entered(index, Add(index, base, name), name, Spellings(base, name, markers, 0))
  {
  }

  /** Enters a file under each of its spellings. */
  method AddKeys(index: Index, base: string, name: string, markers: seq<string>) returns (r: Index)
    ensures Entered(index, r, name, Spellings(base, name, markers, |markers|))
  {
    EnteredOne(index, base, name, markers);
    r := Add(index, base, name);
    var i := 0;
    while i < |markers|
      invariant i <= |markers| && Entered(index, r, name, Spellings(base, name, markers, i))
    {
      r := AddBehind(index, r, base, name, markers, i);
      i := i + 1;
    }
  }

  /** Every spelling is mapped to exactly the supported files it can mean. */
  ghost predicate Indexes(index: Index, supported: set<string>) {
    forall k :: Get(index, k) == Matches(supported, k)
  }

  /** Maps every spelling to the supported files it can mean. */
  method BuildIndex(supported: set<string>) returns (index: Index)
    ensures Indexes(index, supported)
  {
    index := map[];
    var left := supported;
    while left != {}
      invariant left <= supported
      invariant forall k :: Get(index, k) == Matches(supported - left, k)
      decreases left
    {
      var name :| name in left;
      index := AddKeys(index, BaseName(name), name, MARKERS);
      left := left - {name};
    }
    assert supported - {} == supported;
  }

  // ---------------------------------------------------------------------------------------------
  // The closure

  /** A source tree: its files, what each one includes, in order, and what a spelling in a file means
      relative to that file. */
  datatype Tree = Tree(files: set<string>, includes: string -> seq<string>, local: (string, string) -> string)

  /** The supported files an include can mean. */
  function Resolved(t: Tree, name: string, spelling: string): set<string> {
    (if t.local(name, spelling) in Supported(t.files) then {t.local(name, spelling)} else {})
    + Matches(Supported(t.files), spelling)
  }

  /** A file that an include can mean: a supported one that stands there relative to the including file,
      or one that the spelling names. */
  ghost predicate CanMean(t: Tree, name: string, spelling: string, target: string) {
    && target in t.files && !StartsWith(target, "core/soc/esp32p4/register/hw_ver3/")
    && (target == t.local(name, spelling) || Spells(target, spelling))
  }

  lemma ResolvedExact(t: Tree, name: string, spelling: string, target: string)
    ensures target in Resolved(t, name, spelling) <==> CanMean(t, name, spelling, target)
  {
    KeysExact(target, spelling);
  }

  /** Everything a file of `s` can include is in `s`. */
  ghost predicate Closed(t: Tree, s: set<string>) {
    forall name, spelling {:trigger Resolved(t, name, spelling)} ::
      name in s && spelling in t.includes(name) ==> Resolved(t, name, spelling) <= s
  }

  function Roots(t: Tree): set<string> { Supported(t.files) - Services(t.files) }

  /** `s` is the least set that holds the roots and is closed. */
  ghost predicate IsClosure(t: Tree, s: set<string>) {
    && Roots(t) <= s && Closed(t, s)
    && forall other :: Roots(t) <= other && Closed(t, other) ==> s <= other
  }

  function Elements(s: seq<string>): set<string> { set x | x in s }

  lemma Appended(s: seq<string>, x: string)
    ensures Elements(s + [x]) == Elements(s) + {x}
  {
  }

  /** Appends the elements of a set, in any order. */
  method Extend(pending: seq<string>, names: set<string>) returns (r: seq<string>)
    ensures Elements(r) == Elements(pending) + names
  {
    r := pending;
    var left := names;
    while left != {}
      invariant left <= names && Elements(r) == Elements(pending) + (names - left)
      decreases left
    {
      var x :| x in left;
      Appended(r, x);
      r, left := r + [x], left - {x};
    }
  }

  /** What the includes of a file, up to the i-th, can mean. */
  function Targets(t: Tree, name: string, i: nat): set<string>
    requires i <= |t.includes(name)|
  {
    if i == 0 then {} else Targets(t, name, i - 1) + Resolved(t, name, t.includes(name)[i - 1])
  }

  lemma SetAssoc(x: set<string>, y: set<string>, z: set<string>)
    ensures (x + y) + z == x + (y + z)
  {
  }

  method PushResolved(t: Tree, index: Index, pending: seq<string>, name: string, spelling: string)
    returns (r: seq<string>)
    requires Indexes(index, Supported(t.files))
    ensures Elements(r) == Elements(pending) + Resolved(t, name, spelling)
  {
    r := pending;
    var local := t.local(name, spelling);
    if local in Supported(t.files) {
      Appended(r, local);
      r := r + [local];
    }
    r := Extend(r, Get(index, spelling));
  }

  method PushNth(t: Tree, index: Index, pending: seq<string>, name: string, i: nat, ghost start: set<string>)
    returns (r: seq<string>)
    requires Indexes(index, Supported(t.files))
    requires i < |t.includes(name)| && Elements(pending) == start + Targets(t, name, i)
    ensures Elements(r) == start + Targets(t, name, i + 1)
  {
    r := PushResolved(t, index, pending, name, t.includes(name)[i]);
    SetAssoc(start, Targets(t, name, i), Resolved(t, name, t.includes(name)[i]));
  }

  /** Pushes everything the includes of a file can mean. */
  method PushIncludes(t: Tree, index: Index, pending: seq<string>, name: string) returns (r: seq<string>)
    requires Indexes(index, Supported(t.files))
    ensures Elements(r) == Elements(pending) + Targets(t, name, |t.includes(name)|)
  {
    r := pending;
    ghost var start := Elements(pending);
    assert Elements(r) == start + Targets(t, name, 0);
    var n, i := |t.includes(name)|, 0;
    while i < n
      invariant i <= n && Elements(r) == start + Targets(t, name, i)
    {
      r := PushNth(t, index, r, name, i, start);
      i := i + 1;
    }
  }

  function AllTargets(t: Tree, name: string): set<string> { Targets(t, name, |t.includes(name)|) }

  lemma {:induction false} TargetsHold(t: Tree, name: string, i: nat, k: nat)
    requires k < i <= |t.includes(name)|
    ensures Resolved(t, name, t.includes(name)[k]) <= Targets(t, name, i)
  {
    if k < i - 1 { TargetsHold(t, name, i - 1, k); }
  }

  /** What a file's includes can mean, said without the index. */
  lemma {:induction false} TargetsExact(t: Tree, name: string, i: nat, target: string)
    requires i <= |t.includes(name)|
    ensures target in Targets(t, name, i)
            <==> exists k :: 0 <= k < i && CanMean(t, name, t.includes(name)[k], target)
  {
    if i > 0 {
      TargetsExact(t, name, i - 1, target);
      ResolvedExact(t, name, t.includes(name)[i - 1], target);
    }
  }

  lemma {:induction false} TargetsWithin(t: Tree, name: string, i: nat, s: set<string>)
    requires i <= |t.includes(name)| && name in s && Closed(t, s)
    ensures Targets(t, name, i) <= s
  {
    if i > 0 {
      TargetsWithin(t, name, i - 1, s);
      assert t.includes(name)[i - 1] in t.includes(name);
    }
  }

  lemma {:induction false} TargetsSupported(t: Tree, name: string, i: nat)
    requires i <= |t.includes(name)|
    ensures Targets(t, name, i) <= Supported(t.files)
  {
    if i > 0 { TargetsSupported(t, name, i - 1); }
  }

  /** A set that holds the targets of its files is closed. */
  lemma ClosedByTargets(t: Tree, s: set<string>)
    requires forall name :: name in s ==> AllTargets(t, name) <= s
    ensures Closed(t, s)
  {
    forall name, spelling | name in s && spelling in t.includes(name)
      ensures Resolved(t, name, spelling) <= s
    {
      var k :| 0 <= k < |t.includes(name)| && t.includes(name)[k] == spelling;
      TargetsHold(t, name, |t.includes(name)|, k);
    }
  }

  /** Every closed set that holds the roots holds `s`. */
  ghost predicate Needed(t: Tree, s: set<string>) {
    forall other :: Roots(t) <= other && Closed(t, other) ==> s <= other
  }

  lemma NeededStep(t: Tree, s: set<string>, name: string)
    requires Needed(t, s) && name in s
    ensures Needed(t, s + AllTargets(t, name))
  {
    forall other | Roots(t) <= other && Closed(t, other)
      ensures s + AllTargets(t, name) <= other
    {
      TargetsWithin(t, name, |t.includes(name)|, other);
    }
  }

  /** What the worklist keeps true. */
  ghost predicate Progress(t: Tree, retained: set<string>, todo: set<string>) {
    && retained + todo <= Supported(t.files) && Roots(t) <= retained + todo && Needed(t, retained + todo)
    && forall name :: name in retained ==> AllTargets(t, name) <= retained + todo
  }

  lemma ProgressStep(t: Tree, retained: set<string>, rest: set<string>, name: string)
    requires Progress(t, retained, rest + {name})
    ensures Progress(t, retained + {name}, rest + AllTargets(t, name))
  {
    var all, targets := retained + (rest + {name}), AllTargets(t, name);
    NeededStep(t, all, name);
    TargetsSupported(t, name, |t.includes(name)|);
    assert (retained + {name}) + (rest + targets) == all + targets;
  }

  /** The services the worklist never reached are the largest set of services whose removal leaves
      the other supported files closed under their includes. */
  ghost predicate LargestRemovable(t: Tree, removed: set<string>) {
    && removed <= Services(t.files) && Closed(t, Supported(t.files) - removed)
    && forall other :: other <= Services(t.files) && Closed(t, Supported(t.files) - other) ==> other <= removed
  }

  lemma UnreachedIsLargest(t: Tree, retained: set<string>)
    requires IsClosure(t, retained) && retained <= Supported(t.files)
    ensures LargestRemovable(t, Services(t.files) - retained)
  {
    var services, supported := Services(t.files), Supported(t.files);
    ServicesSupported(t.files);
    assert supported - (services - retained) == retained;
    forall other | other <= services && Closed(t, supported - other)
      ensures other <= services - retained
    {
      assert Roots(t) <= supported - other;
      assert retained <= supported - other;
    }
  }

  /** The audit: the closure of the supported files that are no services, by a worklist. */
  method Audit(t: Tree) returns (retained: set<string>, unreferenced: set<string>)
    ensures IsClosure(t, retained) && retained <= Supported(t.files)
    ensures unreferenced == Services(t.files) - retained && LargestRemovable(t, unreferenced)
  {
    var services, supported := Services(t.files), Supported(t.files);
    var index := BuildIndex(supported);
    retained := {};
    var pending := Extend([], supported - services);
    assert Elements([]) == {} && Elements(pending) == Roots(t);
    while pending != []
      invariant Progress(t, retained, Elements(pending))
      decreases supported - retained, |pending|
    {
      var name, rest := pending[|pending| - 1], pending[..|pending| - 1];
      assert pending == rest + [name];
      Appended(rest, name);
      pending := rest;
      if name in retained {
        assert retained + (Elements(rest) + {name}) == retained + Elements(rest);
      } else {
        ProgressStep(t, retained, Elements(rest), name);
        retained := retained + {name};
        pending := PushIncludes(t, index, pending, name);
      }
    }
    assert Elements(pending) == {} && retained + {} == retained;
    ClosedByTargets(t, retained);
    UnreachedIsLargest(t, retained);
    unreferenced := services - retained;
  }

  // ---------------------------------------------------------------------------------------------
  // Reachability

  /** A file reached by includes, with the way there. */
  datatype Path = Root(name: string) | Include(from: Path, name: string)

  /** It starts at a root, and each file includes the next. */
  ghost predicate IncludePath(t: Tree, p: Path) {
    match p
    case Root(name) => name in Roots(t)
    case Include(from, name) =>
      IncludePath(t, from)
      && exists spelling :: spelling in t.includes(from.name) && CanMean(t, from.name, spelling, name)
  }

  lemma AllTargetsExact(t: Tree, name: string, target: string)
    ensures target in AllTargets(t, name)
            <==> exists spelling :: spelling in t.includes(name) && CanMean(t, name, spelling, target)
  {
    var all := t.includes(name);
    TargetsExact(t, name, |all|, target);
    if spelling :| spelling in all && CanMean(t, name, spelling, target) {
      var k :| 0 <= k < |all| && all[k] == spelling;
    }
  }

  ghost predicate Reachable(t: Tree, name: string) {
    exists p {:trigger IncludePath(t, p)} :: IncludePath(t, p) && p.name == name
  }

  lemma {:induction false} PathStaysIn(t: Tree, s: set<string>, p: Path)
    requires Roots(t) <= s && Closed(t, s) && IncludePath(t, p)
    ensures p.name in s
  {
    match p
    case Root(_) =>
    case Include(from, name) =>
      PathStaysIn(t, s, from);
      AllTargetsExact(t, from.name, name);
      TargetsWithin(t, from.name, |t.includes(from.name)|, s);
  }

  lemma RootReachable(t: Tree, x: string)
    requires x in Roots(t)
    ensures Reachable(t, x)
  {
    assert IncludePath(t, Root(x));
  }

  lemma TargetReachable(t: Tree, x: string, y: string)
    requires Reachable(t, x) && y in AllTargets(t, x)
    ensures Reachable(t, y)
  {
    var p :| IncludePath(t, p) && p.name == x;
    AllTargetsExact(t, x, y);
    assert IncludePath(t, Include(p, y));
  }

  /** A file is retained exactly when a path of includes leads to it from a root. */
  lemma RetainedIsReachable(t: Tree, retained: set<string>, name: string)
    requires IsClosure(t, retained)
    ensures name in retained <==> Reachable(t, name)
  {
    if p :| IncludePath(t, p) && p.name == name {
      PathStaysIn(t, retained, p);
    }
    var reached := set x | x in retained && Reachable(t, x);
    forall x | x in Roots(t)
      ensures x in reached
    {
      RootReachable(t, x);
    }
    forall x | x in reached
      ensures AllTargets(t, x) <= reached
    {
      TargetsWithin(t, x, |t.includes(x)|, retained);
      forall y | y in AllTargets(t, x)
        ensures Reachable(t, y)
      {
        TargetReachable(t, x, y);
      }
    }
    ClosedByTargets(t, reached);
  }

  /** The audit reports a file exactly when it is a private or a named service header, is not preserved,
      and no path of includes leads to it from a root. */
  lemma ReportedExactly(t: Tree, retained: set<string>, name: string)
    requires IsClosure(t, retained)
    ensures name in Services(t.files) - retained
            <==> name in t.files && !Reachable(t, name)
                 && (StartsWith(name, "core/esp_hw_support/include/esp_private/")
                     || name == "core/esp_hw_support/include/clk_ctrl_os.h"
                     || name == "core/esp_hw_support/include/esp_sleep.h")
                 && name != "core/esp_hw_support/include/esp_private/regdma_link.h"
  {
    RetainedIsReachable(t, retained, name);
  }
}
