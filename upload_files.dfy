/**
  The local file-list curation of upload.py: dropping excluded extensions and falsy
  entries (`clean_file_list`), rendering the list for a dry run (`format_file_list`) and
  extending the list with the files found under a directory (`recurse_dirs`).
*/
module UploadFiles {
  import opened Wrappers
  import opened Text

  /** A path in the file list: its full text (`str(p)`) and its last component (`p.name`). */
  datatype Entry = Entry(path: string, name: string)

  /**
    Python truthiness of a list entry, which `filter(None, ...)` tests. An entry with an empty
    text is the falsy one; a `pathlib.Path` always has a non-empty text.
  */
  predicate Truthy(e: Entry) {
    e.path != ""
  }

  /** `name.lower().endswith(ea.lower())` for some extension `ea` in `exclude`. */
  predicate Excluded(name: string, exclude: seq<string>) {
    exists i :: 0 <= i < |exclude| && EndsWith(Lower(name), Lower(exclude[i]))
  }

  /** `not args.exclude`: no exclusion list was given, or it is empty. */
  predicate NoExclusions(exclude: Option<seq<string>>) {
    exclude.None? || exclude.value == []
  }

  /** Whether `clean_file_list` keeps an entry. */
  predicate Kept(e: Entry, exclude: Option<seq<string>>) {
    Truthy(e) && (NoExclusions(exclude) || !Excluded(e.name, exclude.value))
  }

  /** `list(filter(None, s))`. */
  function DropFalsy(s: seq<Entry>): seq<Entry> {
    if s == [] then [] else (if Truthy(s[0]) then [s[0]] else []) + DropFalsy(s[1..])
  }

  /** What the loop of `clean_file_list` appends to `photo_file_list_clean`, in order. */
  function DropExcluded(s: seq<Entry>, exclude: seq<string>): seq<Entry> {
    if s == [] then []
    else
      var last := s[|s| - 1];
      DropExcluded(s[..|s| - 1], exclude) + (if Excluded(last.name, exclude) then [] else [last])
  }

  /** The list `clean_file_list` returns. */
  function Cleaned(files: seq<Entry>, exclude: Option<seq<string>>): seq<Entry> {
    if NoExclusions(exclude) then DropFalsy(files) else DropFalsy(DropExcluded(files, exclude.value))
  }

  /**
    `clean_file_list`: with no exclusions, the truthy entries; otherwise the entries whose name
    ends in none of the excluded extensions, then the truthy ones among them.
  */
  method CleanFileList(files: seq<Entry>, exclude: Option<seq<string>>) returns (clean: seq<Entry>)
    ensures clean == Cleaned(files, exclude)
  {
    if NoExclusions(exclude) {
      return DropFalsy(files);
    }
    var ex := exclude.value;
    var kept: seq<Entry> := [];
    for i := 0 to |files|
      invariant kept == DropExcluded(files[..i], ex)
    {
      var p := files[i];
      var addToClean := true;
      var j := 0;
      while j < |ex|
        invariant 0 <= j <= |ex|
        invariant addToClean ==> forall k :: 0 <= k < j ==> !EndsWith(Lower(p.name), Lower(ex[k]))
        invariant !addToClean ==> Excluded(p.name, ex)
      {
        if EndsWith(Lower(p.name), Lower(ex[j])) {
          addToClean := false;
          break;
        }
        j := j + 1;
      }
      if addToClean {
        kept := kept + [p];
      }
      assert files[..i + 1][..i] == files[..i];
    }
    assert files[..|files|] == files;
    clean := DropFalsy(kept);
  }

  /** Membership in the filtered list: an input entry that passes the filter. */
  lemma {:induction false} DropFalsyMembers(s: seq<Entry>, e: Entry)
    ensures e in DropFalsy(s) <==> e in s && Truthy(e)
  {
    if s != [] {
      DropFalsyMembers(s[1..], e);
      assert s == [s[0]] + s[1..];
    }
  }

  lemma {:induction false} DropExcludedMembers(s: seq<Entry>, exclude: seq<string>, e: Entry)
    ensures e in DropExcluded(s, exclude) <==> e in s && !Excluded(e.name, exclude)
  {
    if s != [] {
      DropExcludedMembers(s[..|s| - 1], exclude, e);
      assert s == s[..|s| - 1] + [s[|s| - 1]];
    }
  }

  /** An entry is in the cleaned list exactly when it is in the input and is kept. */
  lemma CleanedMembers(files: seq<Entry>, exclude: Option<seq<string>>, e: Entry)
    ensures e in Cleaned(files, exclude) <==> e in files && Kept(e, exclude)
  {
    if NoExclusions(exclude) {
      DropFalsyMembers(files, e);
    } else {
      DropFalsyMembers(DropExcluded(files, exclude.value), e);
      DropExcludedMembers(files, exclude.value, e);
    }
  }

  lemma {:induction false} DropFalsyConcat(a: seq<Entry>, b: seq<Entry>)
    ensures DropFalsy(a + b) == DropFalsy(a) + DropFalsy(b)
  {
    if a == [] {
      assert a + b == b;
    } else {
      var ab := a + b;
      assert ab != [] && ab[0] == a[0] && ab[1..] == a[1..] + b;
      DropFalsyConcat(a[1..], b);
      var head := if Truthy(a[0]) then [a[0]] else [];
      assert DropFalsy(ab) == head + DropFalsy(a[1..] + b);
      assert DropFalsy(a) == head + DropFalsy(a[1..]);
    }
  }

  lemma {:induction false} DropExcludedConcat(a: seq<Entry>, b: seq<Entry>, exclude: seq<string>)
    ensures DropExcluded(a + b, exclude) == DropExcluded(a, exclude) + DropExcluded(b, exclude)
  {
    if b == [] {
      assert a + b == a;
    } else {
      DropExcludedConcat(a, b[..|b| - 1], exclude);
      assert (a + b)[..|a + b| - 1] == a + b[..|b| - 1];
    }
  }

  /**
    Cleaning keeps input order: cleaning a concatenation is the concatenation of the
    cleaned parts, so every kept entry appears in the same relative position as in the input.
  */
  lemma CleanedConcat(a: seq<Entry>, b: seq<Entry>, exclude: Option<seq<string>>)
    ensures Cleaned(a + b, exclude) == Cleaned(a, exclude) + Cleaned(b, exclude)
  {
    if NoExclusions(exclude) {
      DropFalsyConcat(a, b);
    } else {
      DropExcludedConcat(a, b, exclude.value);
      DropFalsyConcat(DropExcluded(a, exclude.value), DropExcluded(b, exclude.value));
    }
  }

  /** `r` is obtained from `s` by deleting some elements, the rest keeping their order. */
  predicate IsSubsequence<T(==)>(r: seq<T>, s: seq<T>) {
    r == [] || (s != [] && ((r[0] == s[0] && IsSubsequence(r[1..], s[1..])) || IsSubsequence(r, s[1..])))
  }

  lemma {:induction false} DropFalsySubsequence(s: seq<Entry>)
    ensures IsSubsequence(DropFalsy(s), s)
  {
    if s != [] {
      DropFalsySubsequence(s[1..]);
      if Truthy(s[0]) {
        assert DropFalsy(s) == [s[0]] + DropFalsy(s[1..]);
      } else {
        assert DropFalsy(s) == DropFalsy(s[1..]);
      }
    }
  }

  /** Every cleaned entry comes from the input, and in input order. */
  lemma {:induction false} CleanedSubsequence(files: seq<Entry>, exclude: Option<seq<string>>)
    ensures IsSubsequence(Cleaned(files, exclude), files)
  {
    if NoExclusions(exclude) {
      DropFalsySubsequence(files);
    } else {
      var mid := DropExcluded(files, exclude.value);
      DropFalsySubsequence(mid);
      DropExcludedSubsequence(files, exclude.value);
      SubsequenceTransitive(DropFalsy(mid), mid, files);
    }
  }

  lemma {:induction false} SubsequenceTransitive<T>(a: seq<T>, b: seq<T>, c: seq<T>)
    requires IsSubsequence(a, b) && IsSubsequence(b, c)
    ensures IsSubsequence(a, c)
    decreases |c|
  {
    if a != [] {
      if IsSubsequence(b, c[1..]) {
        SubsequenceTransitive(a, b, c[1..]);
      } else if IsSubsequence(a, b[1..]) {
        SubsequenceTransitive(a, b[1..], c[1..]);
      } else {
        SubsequenceTransitive(a[1..], b[1..], c[1..]);
      }
    }
  }

  lemma {:induction false} SubsequenceAppend<T>(r: seq<T>, s: seq<T>, x: T)
    requires IsSubsequence(r, s)
    ensures IsSubsequence(r + [x], s + [x]) && IsSubsequence(r, s + [x])
    decreases |s|
  {
    if r == [] {
      assert r + [x] == [x];
      SubsequenceOfSingle(s, x);
    } else {
      assert (r + [x])[0] == r[0] && (r + [x])[1..] == r[1..] + [x];
      assert (s + [x])[0] == s[0] && (s + [x])[1..] == s[1..] + [x];
      if IsSubsequence(r, s[1..]) {
        SubsequenceAppend(r, s[1..], x);
      } else {
        SubsequenceAppend(r[1..], s[1..], x);
      }
    }
  }

  lemma {:induction false} SubsequenceOfSingle<T>(s: seq<T>, x: T)
    ensures IsSubsequence([x], s + [x])
    decreases |s|
  {
    assert [x][0] == x && [x][1..] == [];
    if s == [] {
      assert s + [x] == [x];
    } else {
      assert (s + [x])[1..] == s[1..] + [x];
      SubsequenceOfSingle(s[1..], x);
    }
  }

  lemma {:induction false} DropExcludedSubsequence(s: seq<Entry>, exclude: seq<string>)
    ensures IsSubsequence(DropExcluded(s, exclude), s)
  {
    if s != [] {
      var init := s[..|s| - 1];
      var last := s[|s| - 1];
      DropExcludedSubsequence(init, exclude);
      SubsequenceAppend(DropExcluded(init, exclude), init, last);
      assert init + [last] == s;
      if Excluded(last.name, exclude) {
        assert DropExcluded(s, exclude) == DropExcluded(init, exclude);
      } else {
        assert DropExcluded(s, exclude) == DropExcluded(init, exclude) + [last];
      }
    }
  }

  /** When every entry is kept, cleaning returns the input unchanged. */
  lemma {:induction false} CleanedKeepsAll(files: seq<Entry>, exclude: Option<seq<string>>)
    requires forall i :: 0 <= i < |files| ==> Kept(files[i], exclude)
    ensures Cleaned(files, exclude) == files
  {
    if files != [] {
      var init, last := files[..|files| - 1], files[|files| - 1];
      CleanedKeepsAll(init, exclude);
      CleanedConcat(init, [last], exclude);
      assert init + [last] == files;
      assert [last][1..] == [] && [last][..0] == [];
      assert DropFalsy([last]) == [last];
      if !NoExclusions(exclude) {
        assert DropExcluded([last], exclude.value) == [last];
      }
    }
  }

  /** Every name ends with the empty string, so an empty extension among the exclusions removes everything. */
  lemma CleanedEmptyExtension(files: seq<Entry>, exclude: seq<string>)
    requires "" in exclude
    ensures Cleaned(files, Some(exclude)) == []
  {
    var i :| 0 <= i < |exclude| && exclude[i] == "";
    assert Lower(exclude[i]) == "";
    forall e | e in files ensures Excluded(e.name, exclude) {
      assert EndsWith(Lower(e.name), Lower(exclude[i]));
    }
    DropExcludedAll(files, exclude);
  }

  lemma {:induction false} DropExcludedAll(s: seq<Entry>, exclude: seq<string>)
    requires forall e :: e in s ==> Excluded(e.name, exclude)
    ensures DropExcluded(s, exclude) == []
  {
    if s != [] {
      assert s[|s| - 1] in s;
      DropExcludedAll(s[..|s| - 1], exclude);
    }
  }

  // ---------------------------------------------------------------------------------------
  // format_file_list

  /** The string the loop of `format_file_list` accumulates: each entry followed by a newline. */
  function Joined(files: seq<Entry>): string {
    if files == [] then "" else Joined(files[..|files| - 1]) + files[|files| - 1].path + "\n"
  }

  /** `'\n'.join(str(e) for e in files)`: the entries separated by newlines. */
  function JoinLines(files: seq<Entry>): string {
    if files == [] then ""
    else if |files| == 1 then files[0].path
    else JoinLines(files[..|files| - 1]) + "\n" + files[|files| - 1].path
  }

  /**
    `format_file_list`: the entries, each followed by a newline, with surrounding whitespace
    stripped from the whole.
  */
  method FormatFileList(files: seq<Entry>) returns (s: string)
    ensures s == Strip(Joined(files), Whitespace)
    ensures files == [] ==> s == ""
    ensures s != [] ==> !IsSpace(s[0]) && !IsSpace(s[|s| - 1])
  {
    var acc := "";
    for i := 0 to |files|
      invariant acc == Joined(files[..i])
    {
      acc := acc + files[i].path + "\n";
      assert files[..i + 1][..i] == files[..i];
    }
    assert files[..|files|] == files;
    s := Strip(acc, Whitespace);
    StripSpec(acc, Whitespace);
  }

  /** The accumulated text is the newline-joined entries plus one final newline. */
  lemma {:induction false} JoinedIsLines(files: seq<Entry>)
    requires files != []
    ensures Joined(files) == JoinLines(files) + "\n"
  {
    var init := files[..|files| - 1];
    if init != [] {
      JoinedIsLines(init);
    }
  }

  lemma {:induction false} JoinLinesStart(files: seq<Entry>)
    requires files != [] && files[0].path != ""
    ensures JoinLines(files) != "" && JoinLines(files)[0] == files[0].path[0]
  {
    if |files| > 1 {
      var init := files[..|files| - 1];
      JoinLinesStart(init);
    }
  }

  /**
    When the first entry does not start, and the last entry does not end, with whitespace,
    `format_file_list` is exactly the newline-joined entries: stripping only removes the final newline.
  */
  lemma FormatIsJoinLines(files: seq<Entry>)
    requires files != []
    requires files[0].path != "" && !IsSpace(files[0].path[0])
    requires var last := files[|files| - 1].path; last != "" && !IsSpace(last[|last| - 1])
    ensures Strip(Joined(files), Whitespace) == JoinLines(files)
  {
    var j := JoinLines(files);
    JoinedIsLines(files);
    JoinLinesStart(files);
    var last := files[|files| - 1].path;
    assert j[|j| - 1] == last[|last| - 1];
    StripAppended(j, '\n', Whitespace);
  }

  // ---------------------------------------------------------------------------------------
  // recurse_dirs

  // The `--recurse` choices: `none`, `once` (one level of sub-directories) and `all` (every level).
  datatype RecurseMode = NoRecursion | Once | All

  /** One path a glob yields, with the answer `is_file()` gives for it. */
  datatype Listed = Listed(entry: Entry, isFile: bool)

  // A directory as seen through its two globs: `p.glob('*/*')` and `p.glob('**/*')`.
  datatype Directory = Directory(oneLevel: seq<Listed>, allLevels: seq<Listed>)

  /** `list_dir`: the glob the recursion mode selects. */
  function Globbed(dir: Directory, mode: RecurseMode): seq<Listed>
    requires mode != NoRecursion
  {
    if mode == Once then dir.oneLevel else dir.allLevels
  }

  /**
    `[pp for pp in list_dir if pp.is_file() if pp not in photo_file_list]`: the comprehension is
    evaluated before the list is extended, so it tests membership in the list as it was.
  */
  function NewFiles(listing: seq<Listed>, present: seq<Entry>): seq<Entry> {
    if listing == [] then []
    else
      var last := listing[|listing| - 1];
      NewFiles(listing[..|listing| - 1], present)
        + (if last.isFile && last.entry !in present then [last.entry] else [])
  }

  /** An entry is appended exactly when the listing holds it as a file and the list did not hold it. */
  lemma {:induction false} NewFilesMembers(listing: seq<Listed>, present: seq<Entry>, e: Entry)
    ensures e in NewFiles(listing, present) <==> Listed(e, true) in listing && e !in present
  {
    if listing != [] {
      var init := listing[..|listing| - 1];
      NewFilesMembers(init, present, e);
      assert listing == init + [listing[|listing| - 1]];
    }
  }

  /** No element occurs twice. */
  predicate Distinct<T(==)>(s: seq<T>) {
    forall i, j :: 0 <= i < j < |s| ==> s[i] != s[j]
  }

  /**
    A list without duplicates stays without duplicates when the listing names each file at
    most once; duplicates inside the listing itself are not filtered out.
  */
  lemma {:induction false} NewFilesKeepDistinct(listing: seq<Listed>, present: seq<Entry>)
    requires Distinct(present)
    requires forall i, j :: 0 <= i < j < |listing| && listing[i].isFile && listing[j].isFile ==> listing[i].entry != listing[j].entry
    ensures Distinct(present + NewFiles(listing, present))
  {
    if listing != [] {
      var init, last := listing[..|listing| - 1], listing[|listing| - 1];
      NewFilesKeepDistinct(init, present);
      var before := present + NewFiles(init, present);
      if last.isFile && last.entry !in present {
        forall e | e in before ensures e != last.entry {
          if e in NewFiles(init, present) {
            NewFilesMembers(init, present, e);
            var k :| 0 <= k < |init| && init[k] == Listed(e, true);
            assert listing[k] == init[k];
          }
        }
        assert present + NewFiles(listing, present) == before + [last.entry];
        DistinctAppend(before, last.entry);
      } else {
        assert present + NewFiles(listing, present) == before;
      }
    }
  }

  lemma DistinctAppend<T>(s: seq<T>, x: T)
    requires Distinct(s) && x !in s
    ensures Distinct(s + [x])
  {
    forall i, j | 0 <= i < j < |s| + 1 ensures (s + [x])[i] != (s + [x])[j] {
      if j == |s| {
        assert s[i] in s;
      }
    }
  }

  /** A listing that names the same new file twice appends it twice. */
  lemma NewFilesRepeats(e: Entry, present: seq<Entry>)
    requires e !in present
    ensures NewFiles([Listed(e, true), Listed(e, true)], present) == [e, e]
  {
    var l := [Listed(e, true), Listed(e, true)];
    assert l[..1] == [Listed(e, true)] && l[..1][..0] == [];
    assert NewFiles(l[..1], present) == [e];
  }

  /** The caller's list, which `recurse_dirs` extends in place and returns. */
  class PhotoFileList {
    var items: seq<Entry>

    constructor (initial: seq<Entry>)
      ensures items == initial
    {
      items := initial;
    }

    /**
      `recurse_dirs(p, args, photo_file_list)`: with `none` the list is left alone; otherwise
      the files the selected glob yields that were not already listed are appended, in glob order.
    */
    method RecurseDirs(dir: Directory, mode: RecurseMode)
      modifies this
      ensures mode == NoRecursion ==> items == old(items)
      ensures mode != NoRecursion ==> items == old(items) + NewFiles(Globbed(dir, mode), old(items))
    {
      if mode == NoRecursion {
        return;
      }
      var listDir := Globbed(dir, mode);
      var added: seq<Entry> := [];
      for i := 0 to |listDir|
        invariant added == NewFiles(listDir[..i], items)
      {
        var pp := listDir[i];
        if pp.isFile && pp.entry !in items {
          added := added + [pp.entry];
        }
        assert listDir[..i + 1][..i] == listDir[..i];
      }
      assert listDir[..|listDir|] == listDir;
      items := items + added;
    }
  }
}
