/**
 * The tree data provider (`FileSystemProvider`) of the decision-file explorer.
 *
 * At the root of the tree it lists the decision files (names ending in
 * `.dmn`) of the first `file:` workspace folder, directories first and
 * rows of the same type by name under the modelled sort (`SortItems`; the
 * engine's own sort need not give that order). Below a decision file
 * `X.dmn` it lists the fixture folder `X-tests`, and an unreadable folder
 * gives no children where `normalizeNFC` is the identity.
 *
 * A URI is represented by its `toString()` text. A `file:` URI is
 * `file://` followed by its file-system path.
 */
module FileExplorer {
  import opened Wrappers
  import opened Strings
  import opened NodeFs

  type Uri = string

  /** One row of a directory listing: a child's name and its file type. */
  type Item = (string, FileType)

  /** A tree node. */
  datatype Entry = Entry(uri: Uri, fileName: string, fileType: FileType)

  datatype WorkspaceFolder = WorkspaceFolder(uri: Uri)

  /**
   * What the promise returned by `getChildren` settles to: a list of entries,
   * `undefined` (the root branch finds no `file:` folder and falls off the end),
   * or a rejection (the root listing fails, and nothing catches it).
   */
  datatype Children = Resolved(entries: seq<Entry>) | ResolvedUndefined | Rejected(error: Error)

  const FileScheme := "file://"
  const DmnSuffix := ".dmn"
  const TestsSuffix := "-tests"

  /** `vscode.Uri.file(p)` */
  function FileUri(p: Path): Uri {
    FileScheme + p
  }

  predicate IsFileUri(u: Uri) {
    |FileScheme| <= |u| && u[..|FileScheme|] == FileScheme
  }

  /** `uri.fsPath` */
  function FsPath(u: Uri): Path {
    if IsFileUri(u) then u[|FileScheme|..] else u
  }

  // ---------------------------------------------------------------------
  // _readDirectory

  /** The row `_readDirectory` produces for child `name` of `dir`. */
  function ItemOf(fs: FileSystem, dir: Path, name: string): Item {
    (name, StatType(Stat(fs, Join(dir, name))))
  }

  /** The rows for the names `names` listed in `dir`. */
  function Items(fs: FileSystem, dir: Path, names: seq<string>): seq<Item> {
    seq(|names|, i requires 0 <= i < |names| => ItemOf(fs, dir, names[i]))
  }

  /**
   * `_readDirectory`: reads the directory, then, child by child in listing
   * order, stats the child and appends its name with its file type.
   */
  method ReadDirectory(fs: FileSystem, dir: Path) returns (r: Result<seq<Item>, Error>)
    ensures r.Success? <==> Readdir(fs, dir).Success?
    ensures r.Failure? ==> r.error == Readdir(fs, dir).error
    ensures r.Success? ==> |r.value| == |Readdir(fs, dir).value|
    ensures r.Success? ==> forall i :: 0 <= i < |r.value| ==>
              r.value[i].0 == Readdir(fs, dir).value[i] &&
              r.value[i].1 == StatType(Stat(fs, Join(dir, Readdir(fs, dir).value[i])))
    ensures r.Success? ==> r.value == Items(fs, dir, Readdir(fs, dir).value)
  {
    var listed := Readdir(fs, dir);
    if listed.Failure? {
      return Failure(listed.error);
    }
    var children := listed.value;
    var result: seq<Item> := [];
    var i := 0;
    while i < |children|
      invariant 0 <= i <= |children|
      invariant |result| == i
      invariant forall k :: 0 <= k < i ==> result[k] == ItemOf(fs, dir, children[k])
    {
      var child := children[i];
      var stat := Stat(fs, Join(dir, child));
      result := result + [(child, StatType(stat))];
      i := i + 1;
    }
    return Success(result);
  }

  // ---------------------------------------------------------------------
  // Root listing: filter and sort

  /** `directoryItems.filter(e => e[0].endsWith(".dmn"))` */
  function FilterDmn(items: seq<Item>): (r: seq<Item>)
    ensures forall x :: multiset(r)[x] == if EndsWith(x.0, DmnSuffix) then multiset(items)[x] else 0
  {
    if items == [] then []
    else
      assert items == [items[0]] + items[1..];
      (if EndsWith(items[0].0, DmnSuffix) then [items[0]] else []) + FilterDmn(items[1..])
  }

  /**
   * The comparator passed to `children.sort`. A directory comes before any
   * other type and rows of one type compare by name; rows of two different
   * non-directory types compare greater in both directions.
   */
  function Compare(a: Item, b: Item): (r: int)
    ensures a.1 != b.1 ==> (r < 0 <==> a.1 == Directory) && r != 0
    ensures r > 0 ==> InOrder(b, a)
    ensures r <= 0 ==> InOrder(a, b)
  {
    if a.1 == b.1 then
      LocaleCompareFlip(a.0, b.0);
      LocaleCompare(a.0, b.0)
    else if a.1 == Directory then -1
    else 1
  }

  /** `a` may precede `b`: no directory after a non-directory, and same-type rows by name. */
  predicate InOrder(a: Item, b: Item) {
    (b.1 == Directory ==> a.1 == Directory) &&
    (a.1 == b.1 ==> LocaleCompare(a.0, b.0) <= 0)
  }

  predicate Sorted(s: seq<Item>) {
    forall i, j :: 0 <= i < j < |s| ==> InOrder(s[i], s[j])
  }

  /**
   * The comparator only separates directories from the rest: two rows of
   * different non-directory types each compare greater than the other.
   */
  lemma CompareOnlyRanksDirectories(a: Item, b: Item)
    requires a.1 != b.1 && a.1 != Directory && b.1 != Directory
    ensures Compare(a, b) == 1 && Compare(b, a) == 1
  {
  }

  /** No row compares below the row before it: a sort that scans for ascending runs keeps such a list as it is. */
  predicate NoDescent(s: seq<Item>) {
    forall i :: 0 < i < |s| ==> Compare(s[i], s[i - 1]) >= 0
  }

  /**
   * Because of the inconsistent answers, a list can show no descent to the
   * comparator and still not be sorted: two files out of name order around
   * an unknown-type row (a dangling link stats as an empty `fs.Stats`).
   */
  lemma UnsortedWithoutDescent()
    ensures var s := [("b.dmn", File), ("x.dmn", Unknown), ("a.dmn", File)];
            NoDescent(s) && !Sorted(s)
  {
    var s := [("b.dmn", File), ("x.dmn", Unknown), ("a.dmn", File)];
    assert LocaleCompare("b.dmn", "a.dmn") == 1;
    assert !InOrder(s[0], s[2]);
  }

  /**
   * A consistent comparator in the spirit of the source: directories first,
   * and otherwise by name whatever the type.
   */
  function CompareIntended(a: Item, b: Item): (r: int)
    ensures (a.1 == Directory) != (b.1 == Directory) ==> (r < 0 <==> a.1 == Directory)
    ensures r <= 0 ==> InOrder(a, b)
  {
    if (a.1 == Directory) == (b.1 == Directory) then LocaleCompare(a.0, b.0)
    else if a.1 == Directory then -1
    else 1
  }

  /** The consistent comparator answers the opposite when its operands are swapped. */
  lemma CompareIntendedFlip(a: Item, b: Item)
    ensures CompareIntended(b, a) == -CompareIntended(a, b)
  {
    LocaleCompareFlip(a.0, b.0);
  }

  /** "Not after" under the consistent comparator is transitive. */
  lemma CompareIntendedTransitive(a: Item, b: Item, c: Item)
    requires CompareIntended(a, b) <= 0 && CompareIntended(b, c) <= 0
    ensures CompareIntended(a, c) <= 0
  {
    if (a.1 == Directory) == (b.1 == Directory) == (c.1 == Directory) {
      LocaleCompareTransitive(a.0, b.0, c.0);
    }
  }

  /** `NoDescent` with the consistent comparator in place of the one as written. */
  predicate NoDescentIntended(s: seq<Item>) {
    forall i :: 0 < i < |s| ==> CompareIntended(s[i], s[i - 1]) >= 0
  }

  /**
   * Under the consistent comparator, a list in which no row compares below
   * the row before it is sorted; the counterexample above cannot arise.
   */
  lemma {:induction false} IntendedNoDescentIsSorted(s: seq<Item>)
    requires NoDescentIntended(s)
    ensures forall i, j :: 0 <= i < j < |s| ==> CompareIntended(s[i], s[j]) <= 0
    ensures Sorted(s)
  {
    if |s| > 1 {
      var t := s[..|s| - 1];
      assert NoDescentIntended(t) by {
        forall i | 0 < i < |t|
          ensures CompareIntended(t[i], t[i - 1]) >= 0
        {
          assert t[i] == s[i] && t[i - 1] == s[i - 1];
        }
      }
      IntendedNoDescentIsSorted(t);
      CompareIntendedFlip(s[|s| - 2], s[|s| - 1]);
      forall i | 0 <= i < |s| - 1
        ensures CompareIntended(s[i], s[|s| - 1]) <= 0
      {
        if i < |s| - 2 {
          assert CompareIntended(t[i], t[|s| - 2]) <= 0;
          CompareIntendedTransitive(s[i], s[|s| - 2], s[|s| - 1]);
        }
      }
    }
  }

  /** A row the comparator does not put after `x` may precede `x`, and so may everything that may precede it. */
  lemma CompareNonPositive(p: Item, y: Item, x: Item)
    requires Compare(y, x) <= 0
    requires InOrder(p, y)
    ensures InOrder(y, x) && InOrder(p, x)
  {
    if p.1 == x.1 && y.1 == x.1 {
      LocaleCompareTransitive(p.0, y.0, x.0);
    }
  }

  /** While `s[j]` is being inserted: the rows up to `hi` other than `s[j]` are in order. */
  predicate InOrderExcept(s: seq<Item>, j: nat, hi: nat)
    requires j <= hi < |s|
  {
    forall k, l :: 0 <= k < l <= hi && k != j && l != j ==> InOrder(s[k], s[l])
  }

  /** While `s[j]` is being inserted: it may precede every row it has passed. */
  predicate PrecedesPassed(s: seq<Item>, j: nat, hi: nat)
    requires j <= hi < |s|
  {
    forall l :: j < l <= hi ==> InOrder(s[j], s[l])
  }

  /** Moving `s[j]` one place left past a row the comparator puts after it keeps both facts. */
  lemma SwapStep(s: seq<Item>, j: nat, hi: nat)
    requires 0 < j <= hi < |s|
    requires InOrderExcept(s, j, hi) && PrecedesPassed(s, j, hi)
    requires Compare(s[j - 1], s[j]) > 0
    ensures InOrderExcept(s[j - 1 := s[j]][j := s[j - 1]], j - 1, hi)
    ensures PrecedesPassed(s[j - 1 := s[j]][j := s[j - 1]], j - 1, hi)
  {
    var t := s[j - 1 := s[j]][j := s[j - 1]];
    forall k, l | 0 <= k < l <= hi && k != j - 1 && l != j - 1
      ensures InOrder(t[k], t[l])
    {
      var k', l' := if k == j then j - 1 else k, if l == j then j - 1 else l;
      assert t[k] == s[k'] && t[l] == s[l'];
    }
  }

  /** Where the insertion of `s[j]` stops, the rows up to `hi` are in order. */
  lemma InsertionStop(s: seq<Item>, j: nat, hi: nat)
    requires j <= hi < |s|
    requires InOrderExcept(s, j, hi) && PrecedesPassed(s, j, hi)
    requires 0 < j ==> Compare(s[j - 1], s[j]) <= 0
    ensures Sorted(s[..hi + 1])
  {
    forall k | 0 <= k < j
      ensures InOrder(s[k], s[j])
    {
      if k == j - 1 {
        CompareNonPositive(s[k], s[k], s[j]);
      } else {
        CompareNonPositive(s[k], s[j - 1], s[j]);
      }
    }
  }

  /** Inserts `a[i]` into the sorted rows before it, moving it left one swap at a time. */
  method Insert(a: array<Item>, i: nat)
    requires i < a.Length
    requires Sorted(a[..i])
    modifies a
    ensures Sorted(a[..i + 1])
    ensures multiset(a[..]) == multiset(old(a[..]))
  {
    var j := i;
    while 0 < j && Compare(a[j - 1], a[j]) > 0
      invariant 0 <= j <= i
      invariant multiset(a[..]) == multiset(old(a[..]))
      invariant InOrderExcept(a[..], j, i) && PrecedesPassed(a[..], j, i)
    {
      SwapStep(a[..], j, i);
      a[j - 1], a[j] := a[j], a[j - 1];
      j := j - 1;
    }
    InsertionStop(a[..], j, i);
  }

  /**
   * `children.sort(compare)`, in place. The engine's sorting algorithm is not
   * fixed by the language; this is an insertion sort that moves each row left
   * past every row the comparator puts after it.
   */
  method SortItems(a: array<Item>)
    modifies a
    ensures Sorted(a[..])
    ensures multiset(a[..]) == multiset(old(a[..]))
  {
    var i := 0;
    while i < a.Length
      invariant 0 <= i <= a.Length
      invariant Sorted(a[..i])
      invariant multiset(a[..]) == multiset(old(a[..]))
    {
      Insert(a, i);
      i := i + 1;
    }
    assert a[..] == a[..a.Length];
  }

  // ---------------------------------------------------------------------
  // getChildren

  /**
   * The fixture folder of a decision file: the URI text up to (not including)
   * its last `.`, followed by `-tests`. Without a `.` the stem is empty.
   */
  function TestFolder(u: Uri): (r: Uri)
    ensures EndsWith(r, TestsSuffix)
    ensures var stem := r[..|r| - |TestsSuffix|];
            stem <= u &&
            ('.' in u ==> |stem| < |u| && u[|stem|] == '.' && forall k :: |stem| < k < |u| ==> u[k] != '.') &&
            ('.' !in u ==> stem == [])
  {
    var stem := Substring(u, 0, LastIndexOf(u, '.'));
    assert (stem + TestsSuffix)[..|stem|] == stem;
    stem + TestsSuffix
  }

  /** A decision file `X.dmn` has the fixture folder `X-tests`. */
  lemma TestFolderOfDecisionFile(u: Uri)
    requires EndsWith(u, DmnSuffix)
    ensures TestFolder(u) == u[..|u| - |DmnSuffix|] + TestsSuffix
  {
    var n := |u| - |DmnSuffix|;
    assert u[n..] == DmnSuffix;
    assert u[n] == '.' && u[n + 1..] == "dmn";
    assert forall m :: n < m < |u| ==> u[m] == u[n + 1..][m - n - 1];
    LastIndexOfAt(u, '.', n);
  }

  /** `workspaceFolders.filter(folder => folder.uri.scheme === 'file')[0]` */
  function FirstFileFolder(folders: seq<WorkspaceFolder>): (r: Option<WorkspaceFolder>)
    ensures r.None? <==> forall i :: 0 <= i < |folders| ==> !IsFileUri(folders[i].uri)
    ensures r.Some? ==> (exists i :: 0 <= i < |folders| && folders[i] == r.value &&
                          IsFileUri(folders[i].uri) && forall k :: 0 <= k < i ==> !IsFileUri(folders[k].uri))
  {
    if folders == [] then None
    else if IsFileUri(folders[0].uri) then Some(folders[0])
    else
      var r := FirstFileFolder(folders[1..]);
      assert forall i :: 0 < i < |folders| ==> folders[i] == folders[1..][i - 1];
      if r.Some? then
        var i :| 0 <= i < |folders[1..]| && folders[1..][i] == r.value &&
                 IsFileUri(folders[1..][i].uri) && forall k :: 0 <= k < i ==> !IsFileUri(folders[1..][k].uri);
        assert folders[i + 1] == r.value;
        r
      else r
  }

  /** The `.map` of the root branch: a root row becomes an entry at `Uri.file(path.join(dir, name))`. */
  function RootEntries(dir: Path, items: seq<Item>): (r: seq<Entry>)
    ensures EntryItems(r) == items
    ensures forall e :: e in r ==> e.uri == FileUri(Join(dir, e.fileName))
  {
    seq(|items|, i requires 0 <= i < |items| => Entry(FileUri(Join(dir, items[i].0)), items[i].0, items[i].1))
  }

  /** The `.map` of the child branch: a fixture row becomes an entry at `Utils.joinPath(folder, name)`. */
  function FixtureEntries(folder: Uri, items: seq<Item>): (r: seq<Entry>)
    ensures EntryItems(r) == items
    ensures forall e :: e in r ==> e.uri == Join(folder, e.fileName)
  {
    seq(|items|, i requires 0 <= i < |items| => Entry(Join(folder, items[i].0), items[i].0, items[i].1))
  }

  /** The name and type of each entry. */
  function EntryItems(entries: seq<Entry>): seq<Item> {
    seq(|entries|, i requires 0 <= i < |entries| => (entries[i].fileName, entries[i].fileType))
  }

  /**
   * What the root branch promises about the entries built from the listing
   * `names` of the workspace folder at `dir`.
   */
  ghost predicate RootListing(fs: FileSystem, dir: Path, names: seq<string>, entries: seq<Entry>) {
    (forall e :: e in entries ==>
       EndsWith(e.fileName, DmnSuffix) &&
       e.uri == FileUri(Join(dir, e.fileName)) &&
       e.fileType == StatType(Stat(fs, Join(dir, e.fileName)))) &&
    multiset(EntryItems(entries)) == multiset(FilterDmn(Items(fs, dir, names))) &&
    Sorted(EntryItems(entries))
  }

  /** With distinct listed names, the row of name `n` occurs once among the rows when `n` is listed, else never. */
  lemma {:induction false} ItemCount(fs: FileSystem, dir: Path, names: seq<string>, n: string)
    requires forall i, j :: 0 <= i < j < |names| ==> names[i] != names[j]
    ensures multiset(Items(fs, dir, names))[ItemOf(fs, dir, n)] == if n in names then 1 else 0
  {
    if names != [] {
      assert Items(fs, dir, names) == [ItemOf(fs, dir, names[0])] + Items(fs, dir, names[1..]);
      assert names == [names[0]] + names[1..];
      ItemCount(fs, dir, names[1..], n);
    }
  }

  /**
   * Every listed decision file is at the root exactly once (readdir lists
   * each name once), with the type its stat gives.
   */
  lemma DecisionFileListedOnce(fs: FileSystem, dir: Path, names: seq<string>, entries: seq<Entry>, n: string)
    requires RootListing(fs, dir, names, entries)
    requires forall i, j :: 0 <= i < j < |names| ==> names[i] != names[j]
    requires n in names && EndsWith(n, DmnSuffix)
    ensures multiset(EntryItems(entries))[ItemOf(fs, dir, n)] == 1
    ensures forall i :: 0 <= i < |entries| && entries[i].fileName == n ==> EntryItems(entries)[i] == ItemOf(fs, dir, n)
  {
    ItemCount(fs, dir, names, n);
    forall i | 0 <= i < |entries| && entries[i].fileName == n
      ensures EntryItems(entries)[i] == ItemOf(fs, dir, n)
    {
      assert entries[i] in entries;
    }
  }

  /**
   * What the child branch promises about the entries of a decision file
   * whose URI is `u`: one per row of the fixture folder's listing, in
   * listing order, or none when the folder cannot be listed.
   */
  ghost predicate FixtureListing(fs: FileSystem, u: Uri, entries: seq<Entry>) {
    var folder := TestFolder(u);
    match Readdir(fs, FsPath(folder))
    case Failure(_) => entries == []
    case Success(names) =>
      |entries| == |names| &&
      forall i :: 0 <= i < |names| ==>
        entries[i] == Entry(Join(folder, names[i]), names[i], StatType(Stat(fs, Join(FsPath(folder), names[i]))))
  }

  /** A row of a permutation of the filtered listing names a decision file and carries its stat type. */
  lemma PermutedRowIsListed(fs: FileSystem, dir: Path, names: seq<string>, rows: seq<Item>, k: nat)
    requires multiset(rows) == multiset(FilterDmn(Items(fs, dir, names)))
    requires k < |rows|
    ensures EndsWith(rows[k].0, DmnSuffix) && rows[k] == ItemOf(fs, dir, rows[k].0)
  {
    var x := rows[k];
    assert x in multiset(rows);
    assert x in multiset(Items(fs, dir, names));
    var m :| 0 <= m < |names| && Items(fs, dir, names)[m] == x;
  }

  /** Sorted rows that are a permutation of the filtered listing become entries as the root branch promises. */
  lemma RootEntriesListing(fs: FileSystem, dir: Path, names: seq<string>, sorted: seq<Item>)
    requires multiset(sorted) == multiset(FilterDmn(Items(fs, dir, names)))
    requires Sorted(sorted)
    ensures RootListing(fs, dir, names, RootEntries(dir, sorted))
  {
    var entries := RootEntries(dir, sorted);
    assert EntryItems(entries) == sorted;
    forall e | e in entries
      ensures EndsWith(e.fileName, DmnSuffix)
      ensures e.uri == FileUri(Join(dir, e.fileName))
      ensures e.fileType == StatType(Stat(fs, Join(dir, e.fileName)))
    {
      var k :| 0 <= k < |entries| && entries[k] == e;
      PermutedRowIsListed(fs, dir, names, sorted, k);
    }
  }

  /** The root branch of `getChildren`, once a `file:` workspace folder at `dir` is chosen. */
  method RootChildren(fs: FileSystem, dir: Path) returns (r: Children)
    ensures Readdir(fs, dir).Failure? ==> r == Rejected(Readdir(fs, dir).error)
    ensures Readdir(fs, dir).Success? ==> r.Resolved? && RootListing(fs, dir, Readdir(fs, dir).value, r.entries)
  {
    var listed := ReadDirectory(fs, dir);
    if listed.Failure? {
      return Rejected(listed.error);
    }
    var children := FilterDmn(listed.value);
    var a := new Item[|children|](i requires 0 <= i < |children| => children[i]);
    assert a[..] == children;
    SortItems(a);
    RootEntriesListing(fs, dir, Readdir(fs, dir).value, a[..]);
    return Resolved(RootEntries(dir, a[..]));
  }

  /** The child branch of `getChildren`: the fixture folder's rows, or none when it cannot be listed. */
  method FixtureChildren(fs: FileSystem, u: Uri) returns (entries: seq<Entry>)
    ensures FixtureListing(fs, u, entries)
  {
    var folder := TestFolder(u);
    var listed := ReadDirectory(fs, FsPath(folder));
    if listed.Failure? {
      return [];
    }
    return FixtureEntries(folder, listed.value);
  }

  /**
   * `getChildren(element)`. With no workspace open there are no children.
   * Without an element, the decision files of the first `file:` workspace
   * folder; with one, the contents of its fixture folder.
   */
  method GetChildren(fs: FileSystem, workspaceFolders: Option<seq<WorkspaceFolder>>, element: Option<Entry>)
    returns (r: Children)
    ensures workspaceFolders.None? ==> r == Resolved([])
    ensures workspaceFolders.Some? && element.Some? ==>
              r.Resolved? && FixtureListing(fs, element.value.uri, r.entries)
    ensures workspaceFolders.Some? && element.None? ==>
              match FirstFileFolder(workspaceFolders.value)
              case None => r == ResolvedUndefined
              case Some(root) =>
                match Readdir(fs, FsPath(root.uri))
                case Failure(e) => r == Rejected(e)
                case Success(names) => r.Resolved? && RootListing(fs, FsPath(root.uri), names, r.entries)
  {
    if workspaceFolders.None? {
      return Resolved([]);
    }
    if element.Some? {
      var entries := FixtureChildren(fs, element.value.uri);
      return Resolved(entries);
    }
    var root := FirstFileFolder(workspaceFolders.value);
    if root.None? {
      return ResolvedUndefined;
    }
    r := RootChildren(fs, FsPath(root.value.uri));
  }
}
