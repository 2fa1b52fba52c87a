/**
 * The loader services of searchCommand/services.py: the check that keeps
 * a tool file inside the cheat-sheet root, the editor whitelist, and the
 * scan of the root directory that fills the four lookup maps of a
 * `SearchCommand`. The file-system queries (`os.path.abspath`, `islink`,
 * `exists`, `isdir`, `listdir`) and the environment are given as inputs.
 */
module Services {
  import opened Wrappers
  import opened Strings
  import opened Sorting
  import opened Session
  import opened Chars

  /** No element occurs twice. */
  predicate NoRepeats<T(==)>(s: seq<T>) {
    forall i, j :: 0 <= i < j < |s| ==> s[i] != s[j]
  }

  /** `posixpath.join(a, b)` */
  function PathJoin(a: string, b: string): (r: string)
  {
    if b != [] && b[0] == '/' then b
    else if a == [] || a[|a| - 1] == '/' then a + b
    else a + "/" + b
  }

  // ---------------------------------------------------------------- paths

  datatype PathError = InvalidPath | SymbolicLink

  /**
   * `sanitize_file_path`: the absolute path of the file must lie strictly
   * below the absolute root (it must start with the root followed by a
   * separator), and the file must not be a symbolic link; the prefix test
   * comes first.
   */
  function SanitizeFilePath(filePath: string, rootDir: string, abspath: string -> string, isLink: string -> bool)
    : (r: Result<string, PathError>)
    ensures r.Ok? ==> r.value == abspath(filePath)
    ensures r.Ok? ==> StartsWith(r.value, abspath(rootDir)) && |r.value| > |abspath(rootDir)|
    ensures r.Ok? ==> r.value[|abspath(rootDir)|] == '/' && !isLink(filePath)
    ensures r == Err(SymbolicLink) ==> isLink(filePath) && StartsWith(abspath(filePath), abspath(rootDir) + "/")
    ensures r.Err? <==> isLink(filePath) || !StartsWith(abspath(filePath), abspath(rootDir) + "/")
  {
    var absPath := abspath(filePath);
    var rootAbs := abspath(rootDir);
    if !StartsWith(absPath, rootAbs + "/") then Err(InvalidPath)
    else if isLink(filePath) then Err(SymbolicLink)
    else Ok(absPath)
  }

  /** The root itself, and anything no longer than it, is refused. */
  lemma SanitizeRejectsRoot(filePath: string, rootDir: string, abspath: string -> string, isLink: string -> bool)
    requires |abspath(filePath)| <= |abspath(rootDir)|
    ensures SanitizeFilePath(filePath, rootDir, abspath, isLink) == Err(InvalidPath)
  {
  }

  /** A path below the root that is not a link comes back as its absolute form. */
  lemma SanitizeAcceptsInside(filePath: string, rootDir: string, rest: string, abspath: string -> string, isLink: string -> bool)
    requires abspath(filePath) == abspath(rootDir) + "/" + rest
    requires !isLink(filePath)
    ensures SanitizeFilePath(filePath, rootDir, abspath, isLink) == Ok(abspath(rootDir) + "/" + rest)
  {
    assert (abspath(rootDir) + "/" + rest)[..|abspath(rootDir) + "/"|] == abspath(rootDir) + "/";
  }

  // --------------------------------------------------------------- editor

  /** The whitelist of `get_safe_editor`: editor name to its fixed path. */
  const AllowedEditors: map<string, string> :=
    map["nano" := "/bin/nano", "vim" := "/usr/bin/vim", "vi" := "/usr/bin/vi"]

  /** `os.path.basename(p)`: what follows the last `/`. */
  function Basename(p: string): (r: string)
    ensures '/' !in r
    ensures |r| <= |p| && r == p[|p| - |r|..]
    ensures |r| < |p| ==> p[|p| - |r| - 1] == '/'
  {
    if p == [] || p[|p| - 1] == '/' then []
    else Basename(p[..|p| - 1]) + [p[|p| - 1]]
  }

  /** `os.environ.get('EDITOR', 'nano')` */
  function EditorSetting(editorEnv: Option<string>): string {
    match editorEnv
    case None => "nano"
    case Some(e) => e
  }

  datatype EditorError = IndexError

  /**
   * `get_safe_editor` as written: the first whitespace-separated word of
   * the basename of `$EDITOR` picks a whitelisted path, returned if it
   * exists. `split()[0]` raises IndexError when the basename is blank.
   */
  function GetSafeEditorAsWritten(editorEnv: Option<string>, pathExists: string -> bool)
    : (r: Result<Option<string>, EditorError>)
    ensures r.Err? <==> AllSpace(Basename(EditorSetting(editorEnv)))
    ensures r.Ok? && r.value.Some? ==> r.value.value in AllowedEditors.Values && pathExists(r.value.value)
  {
    var words := Words(Basename(EditorSetting(editorEnv)));
    WordsEmpty(Basename(EditorSetting(editorEnv)));
    if words == [] then Err(IndexError)
    else if words[0] in AllowedEditors && pathExists(AllowedEditors[words[0]]) then Ok(Some(AllowedEditors[words[0]]))
    else Ok(None)
  }

  /** An `$EDITOR` set to the empty string, or to a directory, makes the lookup raise. */
  lemma BlankEditorRaises(pathExists: string -> bool)
    ensures GetSafeEditorAsWritten(Some(""), pathExists) == Err(IndexError)
    ensures GetSafeEditorAsWritten(Some("/usr/bin/"), pathExists) == Err(IndexError)
  {
    var e := "/usr/bin/";
    assert e[|e| - 1] == '/';
    assert Basename(e) == [];
    assert Words([]) == [];
  }

  /**
   * `get_safe_editor` with a blank basename treated as "no usable
   * editor": it never fails, and what it returns is a whitelisted path
   * that exists.
   */
  function GetSafeEditor(editorEnv: Option<string>, pathExists: string -> bool): (r: Option<string>)
    ensures r.Some? ==> r.value in {"/bin/nano", "/usr/bin/vim", "/usr/bin/vi"} && pathExists(r.value)
  {
    var words := Words(Basename(EditorSetting(editorEnv)));
    if words != [] && words[0] in AllowedEditors && pathExists(AllowedEditors[words[0]]) then
      EditorPath(words[0]);
      Some(AllowedEditors[words[0]])
    else None
  }

  /** Each whitelisted name maps to one of the three fixed paths. */
  lemma EditorPath(n: string)
    requires n in AllowedEditors
    ensures AllowedEditors[n] in {"/bin/nano", "/usr/bin/vim", "/usr/bin/vi"}
  {
    assert n == "nano" || n == "vim" || n == "vi";
  }

  /** Wherever the original returns, the corrected version returns the same. */
  lemma GetSafeEditorAgrees(editorEnv: Option<string>, pathExists: string -> bool)
    ensures GetSafeEditorAsWritten(editorEnv, pathExists).Ok? ==> GetSafeEditor(editorEnv, pathExists) == GetSafeEditorAsWritten(editorEnv, pathExists).value
    ensures GetSafeEditorAsWritten(editorEnv, pathExists).Err? ==> GetSafeEditor(editorEnv, pathExists) == None
  {
  }

  lemma {:induction false} BasenameAfterSlash(x: string, y: string)
    requires x == [] || x[|x| - 1] == '/'
    requires '/' !in y
    ensures Basename(x + y) == y
    decreases |y|
  {
    if y == [] {
      assert x + y == x;
    } else {
      var y', c := y[..|y| - 1], y[|y| - 1];
      assert y == y' + [c];
      assert x + y == (x + y') + [c];
      BasenameAfterSlash(x, y');
      BasenameSnoc(x + y', c);
    }
  }

  /** A last character other than `/` extends the basename. */
  lemma BasenameSnoc(p: string, c: char)
    requires c != '/'
    ensures Basename(p + [c]) == Basename(p) + [c]
  {
    assert (p + [c])[..|p|] == p;
  }

  lemma EditorNamesAreWords()
    ensures forall n :: n in AllowedEditors ==> IsWord(n) && '/' !in n
  {
    forall n | n in AllowedEditors ensures IsWord(n) && '/' !in n {
      assert n == "nano" || n == "vim" || n == "vi";
      assert forall k :: 0 <= k < |n| ==> 'a' <= n[k] <= 'z';
    }
  }

  /**
   * A whitelisted name, bare or under any directory and followed by
   * arguments without a `/`, selects its path.
   */
  lemma GetSafeEditorSelects(dir: string, name: string, args: string, pathExists: string -> bool)
    requires name in AllowedEditors
    requires args == [] || IsSpace(args[0])
    requires '/' !in args
    ensures GetSafeEditor(Some(PathJoin(dir, name) + args), pathExists)
            == if pathExists(AllowedEditors[name]) then Some(AllowedEditors[name]) else None
  {
    EditorNamesAreWords();
    assert '/' !in name + args && name != [];
    var e := PathJoin(dir, name) + args;
    BasenameOfJoined(dir, name, args);
    WordsOfWordThen(name, args);
    var words := Words(Basename(EditorSetting(Some(e))));
    assert words == [name] + Words(args);
    assert words != [] && words[0] == name;
  }

  /** A name and arguments without a `/`, joined under any directory, are the basename. */
  lemma BasenameOfJoined(dir: string, name: string, args: string)
    requires name != [] && '/' !in name + args
    ensures Basename(PathJoin(dir, name) + args) == name + args
  {
    var x := if dir == [] || dir[|dir| - 1] == '/' then dir else dir + "/";
    assert name[0] in name + args;
    assert PathJoin(dir, name) == x + name;
    assert (x + name) + args == x + (name + args);
    BasenameAfterSlash(x, name + args);
  }

  /** With `$EDITOR` unset, nano is chosen when it is installed. */
  lemma GetSafeEditorDefault(pathExists: string -> bool)
    ensures GetSafeEditor(None, pathExists) == if pathExists("/bin/nano") then Some("/bin/nano") else None
  {
    SameSettingSameEditor(None, Some("nano"), pathExists);
    GetSafeEditorBare("nano", pathExists);
  }

  /** A bare whitelisted name selects its path. */
  lemma GetSafeEditorBare(name: string, pathExists: string -> bool)
    requires name in AllowedEditors
    ensures GetSafeEditor(Some(name), pathExists)
            == if pathExists(AllowedEditors[name]) then Some(AllowedEditors[name]) else None
  {
    assert PathJoin([], name) == name;
    assert name + [] == name;
    GetSafeEditorSelects([], name, [], pathExists);
  }

  /** The lookup sees only the effective setting. */
  lemma SameSettingSameEditor(a: Option<string>, b: Option<string>, pathExists: string -> bool)
    requires EditorSetting(a) == EditorSetting(b)
    ensures GetSafeEditor(a, pathExists) == GetSafeEditor(b, pathExists)
  {
  }

  // ------------------------------------------------------ directory scan

  /**
   * What the scan is told about the file system: whether a path exists,
   * whether it is a directory, and the names it lists (in any order).
   */
  datatype FileSystem = FileSystem(pathExists: string -> bool, isDir: string -> bool, listDir: string -> seq<string>)

  /** The three maps the scan fills; `tools_by_category` is always `categories`. */
  datatype Tables = Tables(
    categories: map<string, seq<string>>,
    toolToFile: map<string, string>,
    toolToCategory: map<string, string>)

  const NoTables := Tables(map[], map[], map[])

  /** The tool a file defines: its name without the `.txt` suffix. */
  function ToolName(f: string): (r: Option<string>)
    ensures r.Some? ==> r.value + ".txt" == f
    ensures r.None? ==> !EndsWith(f, ".txt")
  {
    if EndsWith(f, ".txt") then Some(f[..|f| - 4]) else None
  }

  /**
   * The inner loop over one category's sorted file names: every `.txt`
   * file whose tool name is not yet taken is recorded with its path and
   * category and appended to `tools`.
   */
  function ScanFiles(categoryPath: string, category: string, files: seq<string>, t: Tables, tools: seq<string>)
    : (r: (Tables, seq<string>))
    ensures r.0.categories == t.categories
    decreases |files|
  {
    if files == [] then (t, tools)
    else
      match ToolName(files[0])
      case None => ScanFiles(categoryPath, category, files[1..], t, tools)
      case Some(name) =>
        if name in t.toolToCategory then ScanFiles(categoryPath, category, files[1..], t, tools)
        else
          ScanFiles(categoryPath, category, files[1..],
            Tables(t.categories, t.toolToFile[name := PathJoin(categoryPath, files[0])], t.toolToCategory[name := category]),
            tools + [name])
  }

  /** The outer loop over the root's sorted entries: every directory becomes a category. */
  function ScanCategories(root: string, entries: seq<string>, fs: FileSystem, t: Tables): (r: Tables)
    decreases |entries|
  {
    if entries == [] then t
    else
      var category := entries[0];
      var path := PathJoin(root, category);
      if !fs.isDir(path) then ScanCategories(root, entries[1..], fs, t)
      else
        var (t', tools) := ScanFiles(path, category, SortStrings(fs.listDir(path)), t, []);
        ScanCategories(root, entries[1..], fs, Tables(t'.categories[category := tools], t'.toolToFile, t'.toolToCategory))
  }

  /** Where the file of tool `x` of category `c` lives. */
  function ToolPath(root: string, c: string, x: string): string {
    PathJoin(PathJoin(root, c), x + ".txt")
  }

  /** Every recorded tool has a file, in its category's directory. */
  ghost predicate FilesPlaced(root: string, t: Tables) {
    t.toolToFile.Keys == t.toolToCategory.Keys
    && forall x :: x in t.toolToCategory ==> t.toolToFile[x] == ToolPath(root, t.toolToCategory[x], x)
  }

  /** A tool listed under a category maps back to it. */
  ghost predicate ListedMapsBack(t: Tables) {
    forall c, x :: c in t.categories && x in t.categories[c] ==> x in t.toolToCategory && t.toolToCategory[x] == c
  }

  /** A tool's category lists it. */
  ghost predicate MappedIsListed(t: Tables) {
    forall x :: x in t.toolToCategory ==> t.toolToCategory[x] in t.categories && x in t.categories[t.toolToCategory[x]]
  }

  /** No category lists a tool twice. */
  ghost predicate ListsDistinct(t: Tables) {
    forall c :: c in t.categories ==> NoRepeats(t.categories[c])
  }

  /**
   * The maps agree with each other: a tool's category lists it, a listed
   * tool maps back to its category, its file lies in that category's
   * directory, and no category lists a tool twice.
   */
  ghost predicate Consistent(root: string, t: Tables) {
    FilesPlaced(root, t) && MappedIsListed(t) && ListedMapsBack(t) && ListsDistinct(t)
  }

  /** `Consistent`, halfway through category `cat`, whose tools so far are `tools`. */
  ghost predicate Partial(root: string, t: Tables, cat: string, tools: seq<string>) {
    FilesPlaced(root, t) && ListedMapsBack(t) && ListsDistinct(t)
    && cat !in t.categories
    && (forall x :: x in t.toolToCategory && t.toolToCategory[x] != cat ==>
          t.toolToCategory[x] in t.categories && x in t.categories[t.toolToCategory[x]])
    && (forall x :: x in t.toolToCategory && t.toolToCategory[x] == cat ==> x in tools)
    && (forall k :: 0 <= k < |tools| ==> tools[k] in t.toolToCategory && t.toolToCategory[tools[k]] == cat)
    && NoRepeats(tools)
  }

  lemma StartCategory(root: string, t: Tables, cat: string)
    requires Consistent(root, t) && cat !in t.categories
    ensures Partial(root, t, cat, [])
  {
  }

  function Record(t: Tables, root: string, cat: string, name: string): Tables {
    Tables(t.categories, t.toolToFile[name := ToolPath(root, cat, name)], t.toolToCategory[name := cat])
  }

  lemma FilesPlacedStep(root: string, t: Tables, cat: string, name: string)
    requires FilesPlaced(root, t)
    ensures FilesPlaced(root, Record(t, root, cat, name))
  {
  }

  lemma ListedMapsBackStep(root: string, t: Tables, cat: string, name: string)
    requires ListedMapsBack(t) && name !in t.toolToCategory
    ensures ListedMapsBack(Record(t, root, cat, name))
  {
  }

  lemma AppendFresh(tools: seq<string>, name: string)
    requires NoRepeats(tools) && name !in tools
    ensures NoRepeats(tools + [name])
  {
    var tools' := tools + [name];
    forall i, j | 0 <= i < j < |tools'| ensures tools'[i] != tools'[j] {
      assert tools'[i] == tools[i];
      if j < |tools| {
        assert tools'[j] == tools[j];
      }
    }
  }

  /** Recording one fresh tool of category `cat` keeps `Partial`. */
  lemma PartialStep(root: string, t: Tables, cat: string, tools: seq<string>, name: string)
    requires Partial(root, t, cat, tools)
    requires name !in t.toolToCategory
    ensures Partial(root, Record(t, root, cat, name), cat, tools + [name])
  {
    var t' := Record(t, root, cat, name);
    var tools' := tools + [name];
    FilesPlacedStep(root, t, cat, name);
    ListedMapsBackStep(root, t, cat, name);
    AppendFresh(tools, name);
    forall k | 0 <= k < |tools'| ensures tools'[k] in t'.toolToCategory && t'.toolToCategory[tools'[k]] == cat {
      if k < |tools| {
        assert tools'[k] == tools[k];
      }
    }
    assert forall x :: x in tools ==> x in tools';
  }

  lemma {:induction false} ScanFilesPartial(root: string, category: string, files: seq<string>, t: Tables, tools: seq<string>)
    requires Partial(root, t, category, tools)
    ensures Partial(root, ScanFiles(PathJoin(root, category), category, files, t, tools).0, category,
                    ScanFiles(PathJoin(root, category), category, files, t, tools).1)
    decreases |files|
  {
    if files != [] {
      match ToolName(files[0])
      case None =>
        ScanFilesPartial(root, category, files[1..], t, tools);
      case Some(name) =>
        if name in t.toolToCategory {
          ScanFilesPartial(root, category, files[1..], t, tools);
        } else {
          PartialStep(root, t, category, tools, name);
          assert PathJoin(PathJoin(root, category), files[0]) == ToolPath(root, category, name);
          ScanFilesPartial(root, category, files[1..], Record(t, root, category, name), tools + [name]);
        }
    }
  }

  lemma FinishCategory(root: string, t: Tables, cat: string, tools: seq<string>)
    requires Partial(root, t, cat, tools)
    ensures Consistent(root, Tables(t.categories[cat := tools], t.toolToFile, t.toolToCategory))
  {
    var t' := Tables(t.categories[cat := tools], t.toolToFile, t.toolToCategory);
    assert FilesPlaced(root, t');
    FinishListed(root, t, cat, tools);
    FinishMapped(root, t, cat, tools);
    FinishDistinct(root, t, cat, tools);
  }

  lemma FinishListed(root: string, t: Tables, cat: string, tools: seq<string>)
    requires Partial(root, t, cat, tools)
    ensures ListedMapsBack(Tables(t.categories[cat := tools], t.toolToFile, t.toolToCategory))
  {
    var t' := Tables(t.categories[cat := tools], t.toolToFile, t.toolToCategory);
    forall c, x | c in t'.categories && x in t'.categories[c]
      ensures x in t'.toolToCategory && t'.toolToCategory[x] == c
    {
      if c == cat {
        var k :| 0 <= k < |tools| && tools[k] == x;
      } else {
        assert c in t.categories && x in t.categories[c];
      }
    }
  }

  lemma FinishMapped(root: string, t: Tables, cat: string, tools: seq<string>)
    requires Partial(root, t, cat, tools)
    ensures MappedIsListed(Tables(t.categories[cat := tools], t.toolToFile, t.toolToCategory))
  {
    var t' := Tables(t.categories[cat := tools], t.toolToFile, t.toolToCategory);
    forall x | x in t'.toolToCategory
      ensures t'.toolToCategory[x] in t'.categories && x in t'.categories[t'.toolToCategory[x]]
    {
      if t.toolToCategory[x] != cat {
        assert t.toolToCategory[x] in t.categories && x in t.categories[t.toolToCategory[x]];
      }
    }
  }

  lemma FinishDistinct(root: string, t: Tables, cat: string, tools: seq<string>)
    requires Partial(root, t, cat, tools)
    ensures ListsDistinct(Tables(t.categories[cat := tools], t.toolToFile, t.toolToCategory))
  {
    var t' := Tables(t.categories[cat := tools], t.toolToFile, t.toolToCategory);
    forall c | c in t'.categories ensures NoRepeats(t'.categories[c]) {
      if c != cat {
        assert t'.categories[c] == t.categories[c];
      }
    }
  }


  lemma {:induction false} ScanCategoriesConsistent(root: string, entries: seq<string>, fs: FileSystem, t: Tables)
    requires Consistent(root, t)
    requires NoRepeats(entries)
    requires forall k :: 0 <= k < |entries| ==> entries[k] !in t.categories
    ensures Consistent(root, ScanCategories(root, entries, fs, t))
    decreases |entries|
  {
    if entries != [] {
      var category := entries[0];
      var path := PathJoin(root, category);
      assert NoRepeats(entries[1..]);
      if !fs.isDir(path) {
        ScanCategoriesConsistent(root, entries[1..], fs, t);
      } else {
        var files := SortStrings(fs.listDir(path));
        var (t', tools) := ScanFiles(path, category, files, t, []);
        StartCategory(root, t, category);
        ScanFilesPartial(root, category, files, t, []);
        FinishCategory(root, t', category, tools);
        var t'' := Tables(t'.categories[category := tools], t'.toolToFile, t'.toolToCategory);
        assert forall k :: 0 <= k < |entries[1..]| ==> entries[1..][k] !in t''.categories by {
          forall k | 0 <= k < |entries[1..]| ensures entries[1..][k] !in t''.categories {
            assert entries[1..][k] == entries[k + 1] != entries[0];
          }
        }
        ScanCategoriesConsistent(root, entries[1..], fs, t'');
      }
    }
  }

  /** The directories among the entries are exactly the new categories. */
  lemma {:induction false} ScanCategoriesKeys(root: string, entries: seq<string>, fs: FileSystem, t: Tables)
    ensures ScanCategories(root, entries, fs, t).categories.Keys
            == t.categories.Keys + set e | e in entries && fs.isDir(PathJoin(root, e))
    decreases |entries|
  {
    if entries != [] {
      ScanCategoriesKeys(root, entries[1..], fs, t);
      var path := PathJoin(root, entries[0]);
      if fs.isDir(path) {
        var (t', tools) := ScanFiles(path, entries[0], SortStrings(fs.listDir(path)), t, []);
        ScanCategoriesKeys(root, entries[1..], fs, Tables(t'.categories[entries[0] := tools], t'.toolToFile, t'.toolToCategory));
      }
      assert forall e :: e in entries <==> e == entries[0] || e in entries[1..];
    }
  }

  /** The inner loop forgets no tool and records every `.txt` name it meets. */
  lemma {:induction false} ScanFilesCovers(categoryPath: string, category: string, files: seq<string>, t: Tables, tools: seq<string>)
    ensures t.toolToCategory.Keys <= ScanFiles(categoryPath, category, files, t, tools).0.toolToCategory.Keys
    ensures forall f :: f in files && ToolName(f).Some? ==>
              ToolName(f).value in ScanFiles(categoryPath, category, files, t, tools).0.toolToCategory
    decreases |files|
  {
    if files != [] {
      match ToolName(files[0])
      case None =>
        ScanFilesCovers(categoryPath, category, files[1..], t, tools);
      case Some(name) =>
        if name in t.toolToCategory {
          ScanFilesCovers(categoryPath, category, files[1..], t, tools);
        } else {
          ScanFilesCovers(categoryPath, category, files[1..],
            Tables(t.categories, t.toolToFile[name := PathJoin(categoryPath, files[0])], t.toolToCategory[name := category]),
            tools + [name]);
        }
      assert forall f :: f in files ==> f == files[0] || f in files[1..];
    }
  }

  /**
   * The outer loop forgets no tool, and every `.txt` file of every
   * category directory names a tool that ends up in some category.
   */
  lemma {:induction false} ScanCategoriesCovers(root: string, entries: seq<string>, fs: FileSystem, t: Tables)
    ensures t.toolToCategory.Keys <= ScanCategories(root, entries, fs, t).toolToCategory.Keys
    ensures forall e, f :: e in entries && fs.isDir(PathJoin(root, e)) && f in fs.listDir(PathJoin(root, e)) && ToolName(f).Some? ==>
              ToolName(f).value in ScanCategories(root, entries, fs, t).toolToCategory
    decreases |entries|
  {
    if entries != [] {
      var path := PathJoin(root, entries[0]);
      if !fs.isDir(path) {
        ScanCategoriesCovers(root, entries[1..], fs, t);
      } else {
        var files := SortStrings(fs.listDir(path));
        var (t', tools) := ScanFiles(path, entries[0], files, t, []);
        ScanFilesCovers(path, entries[0], files, t, []);
        assert forall f :: f in fs.listDir(path) ==> f in files by {
          forall f | f in fs.listDir(path) ensures f in files {
            assert f in multiset(fs.listDir(path));
          }
        }
        ScanCategoriesCovers(root, entries[1..], fs, Tables(t'.categories[entries[0] := tools], t'.toolToFile, t'.toolToCategory));
      }
      assert forall e :: e in entries ==> e == entries[0] || e in entries[1..];
    }
  }

  lemma {:induction false} NoRepeatsCount<T>(s: seq<T>, x: T)
    requires NoRepeats(s)
    ensures multiset(s)[x] <= 1
  {
    if s != [] {
      assert s == [s[0]] + s[1..];
      assert NoRepeats(s[1..]);
      NoRepeatsCount(s[1..], x);
      if x == s[0] {
        assert x !in s[1..];
      }
    }
  }

  lemma TwoCopies<T>(b: seq<T>, i: nat, j: nat)
    requires i < j < |b|
    ensures b[i] == b[j] ==> multiset(b)[b[i]] >= 2
  {
    assert b == b[..j] + b[j..];
    assert b[i] in multiset(b[..j]);
    assert b[j] in multiset(b[j..]);
  }

  /** A rearrangement of a list without repeats has none either. */
  lemma NoRepeatsPerm<T>(a: seq<T>, b: seq<T>)
    requires NoRepeats(a) && multiset(a) == multiset(b)
    ensures NoRepeats(b)
  {
    forall i, j | 0 <= i < j < |b| ensures b[i] != b[j] {
      NoRepeatsCount(a, b[i]);
      TwoCopies(b, i, j);
    }
  }

  datatype LoadError = DirectoryNotFound | NoCategories

  /**
   * `parse_directory_structure` as a function: FileNotFoundError when the
   * root is missing, ValueError when the scan found no category, and the
   * tables otherwise.
   */
  function LoadTables(root: string, fs: FileSystem): (r: Result<Tables, LoadError>)
  {
    if !fs.pathExists(root) then Err(DirectoryNotFound)
    else
      var t := ScanCategories(root, SortStrings(fs.listDir(root)), fs, NoTables);
      if t.categories == map[] then Err(NoCategories) else Ok(t)
  }

  /** Sorting the listing keeps its names. */
  lemma SortedSameNames(names: seq<string>)
    ensures forall e :: e in SortStrings(names) <==> e in names
  {
    var sorted := SortStrings(names);
    forall e ensures e in sorted <==> e in names {
      assert e in sorted <==> e in multiset(sorted);
    }
  }

  /**
   * The loader fails with DirectoryNotFound exactly when the root is
   * missing, and with ValueError exactly when the root holds no directory.
   */
  lemma LoadTablesErrors(root: string, fs: FileSystem)
    ensures LoadTables(root, fs) == Err(DirectoryNotFound) <==> !fs.pathExists(root)
    ensures LoadTables(root, fs) == Err(NoCategories)
            <==> fs.pathExists(root) && forall e :: e in fs.listDir(root) ==> !fs.isDir(PathJoin(root, e))
  {
    if fs.pathExists(root) {
      var entries := SortStrings(fs.listDir(root));
      ScanCategoriesKeys(root, entries, fs, NoTables);
      SortedSameNames(fs.listDir(root));
      var t := ScanCategories(root, entries, fs, NoTables);
      if forall e :: e in fs.listDir(root) ==> !fs.isDir(PathJoin(root, e)) {
        assert t.categories.Keys == {};
      } else {
        var e :| e in fs.listDir(root) && fs.isDir(PathJoin(root, e));
        assert e in t.categories.Keys;
      }
    }
  }

  /** Loaded tables are consistent: lists, file paths and categories agree. */
  lemma LoadTablesConsistent(root: string, fs: FileSystem)
    requires NoRepeats(fs.listDir(root))
    ensures LoadTables(root, fs).Ok? ==> Consistent(root, LoadTables(root, fs).value)
  {
    if fs.pathExists(root) {
      var entries := SortStrings(fs.listDir(root));
      NoRepeatsPerm(fs.listDir(root), entries);
      ScanCategoriesConsistent(root, entries, fs, NoTables);
    }
  }

  /** The categories are exactly the directories under the root, empty ones included. */
  lemma LoadTablesCategories(root: string, fs: FileSystem)
    ensures LoadTables(root, fs).Ok? ==>
              LoadTables(root, fs).value.categories.Keys == (set e | e in fs.listDir(root) && fs.isDir(PathJoin(root, e)))
  {
    if fs.pathExists(root) {
      var entries := SortStrings(fs.listDir(root));
      ScanCategoriesKeys(root, entries, fs, NoTables);
      SortedSameNames(fs.listDir(root));
    }
  }

  /** Every `.txt` file of a category names a loaded tool. */
  lemma LoadTablesCovers(root: string, fs: FileSystem)
    ensures LoadTables(root, fs).Ok? ==>
              forall e, f :: e in fs.listDir(root) && fs.isDir(PathJoin(root, e)) && f in fs.listDir(PathJoin(root, e)) && ToolName(f).Some? ==>
                ToolName(f).value in LoadTables(root, fs).value.toolToCategory
  {
    if fs.pathExists(root) {
      var entries := SortStrings(fs.listDir(root));
      ScanCategoriesCovers(root, entries, fs, NoTables);
      SortedSameNames(fs.listDir(root));
    }
  }

  /** Every tool belongs to exactly one category once loading succeeded. */
  lemma LoadedToolHasOneCategory(root: string, fs: FileSystem, x: string, c: string, d: string)
    requires NoRepeats(fs.listDir(root))
    requires LoadTables(root, fs).Ok?
    requires var t := LoadTables(root, fs).value;
             c in t.categories && d in t.categories && x in t.categories[c] && x in t.categories[d]
    ensures c == d
  {
    LoadTablesConsistent(root, fs);
    OneCategory(LoadTables(root, fs).value, x, c, d);
  }

  lemma OneCategory(t: Tables, x: string, c: string, d: string)
    requires ListedMapsBack(t)
    requires c in t.categories && d in t.categories && x in t.categories[c] && x in t.categories[d]
    ensures c == d
  {
    assert x in t.toolToCategory && t.toolToCategory[x] == c;
    assert t.toolToCategory[x] == d;
  }

  /** The inner loop of `parse_directory_structure`, over one category's sorted file names. */
  method ScanToolFiles(sc: SearchCommand, category: string, categoryPath: string, files: seq<string>, seen0: set<string>)
    returns (tools: seq<string>, seen: set<string>)
    requires seen0 == sc.toolToCategory.Keys
    modifies sc`toolToFile, sc`toolToCategory
    ensures seen == sc.toolToCategory.Keys
    ensures (Tables(sc.categories, sc.toolToFile, sc.toolToCategory), tools)
            == ScanFiles(categoryPath, category, files, old(Tables(sc.categories, sc.toolToFile, sc.toolToCategory)), [])
  {
    tools := [];
    seen := seen0;
    for j := 0 to |files|
      invariant seen == sc.toolToCategory.Keys
      invariant ScanFiles(categoryPath, category, files[j..], Tables(sc.categories, sc.toolToFile, sc.toolToCategory), tools)
                == ScanFiles(categoryPath, category, files, old(Tables(sc.categories, sc.toolToFile, sc.toolToCategory)), [])
    {
      assert files[j..][1..] == files[j + 1..];
      var toolFile := files[j];
      if EndsWith(toolFile, ".txt") {
        var toolName := toolFile[..|toolFile| - 4];
        if toolName !in seen {
          seen := seen + {toolName};
          tools := tools + [toolName];
          sc.toolToFile := sc.toolToFile[toolName := PathJoin(categoryPath, toolFile)];
          sc.toolToCategory := sc.toolToCategory[toolName := category];
        }
      }
    }
  }

  /**
   * `parse_directory_structure`: with the root present, the four maps are
   * reset and refilled by the scan (`tools_by_category` equal to
   * `categories`), and ValueError is reported when no category was found;
   * with the root missing nothing changes.
   */
  method ParseDirectoryStructure(sc: SearchCommand, fs: FileSystem) returns (r: Result<(), LoadError>)
    modifies sc`categories, sc`toolsByCategory, sc`toolToFile, sc`toolToCategory
    ensures !fs.pathExists(sc.rootDir) ==> r == Err(DirectoryNotFound) && unchanged(sc)
    ensures fs.pathExists(sc.rootDir) ==>
              var t := ScanCategories(sc.rootDir, SortStrings(fs.listDir(sc.rootDir)), fs, NoTables);
              sc.categories == t.categories && sc.toolsByCategory == t.categories
              && sc.toolToFile == t.toolToFile && sc.toolToCategory == t.toolToCategory
    ensures r.Ok? <==> LoadTables(sc.rootDir, fs).Ok?
    ensures r.Err? ==> LoadTables(sc.rootDir, fs) == Err(r.error)
  {
    var root := sc.rootDir;
    if !fs.pathExists(root) {
      return Err(DirectoryNotFound);
    }
    sc.toolsByCategory := map[];
    sc.categories := map[];
    sc.toolToFile := map[];
    sc.toolToCategory := map[];
    var seen: set<string> := {};
    var entries := SortStrings(fs.listDir(root));
    ghost var goal := ScanCategories(root, entries, fs, NoTables);
    for i := 0 to |entries|
      invariant sc.toolsByCategory == sc.categories
      invariant seen == sc.toolToCategory.Keys
      invariant ScanCategories(root, entries[i..], fs, Tables(sc.categories, sc.toolToFile, sc.toolToCategory)) == goal
    {
      assert entries[i..][1..] == entries[i + 1..];
      var category := entries[i];
      var categoryPath := PathJoin(root, category);
      if fs.isDir(categoryPath) {
        var tools;
        tools, seen := ScanToolFiles(sc, category, categoryPath, SortStrings(fs.listDir(categoryPath)), seen);
        sc.categories := sc.categories[category := tools];
        sc.toolsByCategory := sc.toolsByCategory[category := tools];
      }
    }
    if sc.categories == map[] {
      return Err(NoCategories);
    }
    return Ok(());
  }
}
