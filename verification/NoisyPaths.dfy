/** isNoisyPath: which file-system changes are not worth an audit event, on Windows paths whose volume is a
    drive letter. */
module NoisyPaths {
  predicate IsSeparator(c: char) { c == '\\' || c == '/' }

  function LowerChar(c: char): char { if 'A' <= c <= 'Z' then (c as int + 32) as char else c }

  /** strings.ToLower on ASCII letters. */
  function Lower(s: string): (r: string)
    ensures |r| == |s| && forall i | 0 <= i < |s| :: r[i] == LowerChar(s[i])
  {
    if s == "" then "" else [LowerChar(s[0])] + Lower(s[1..])
  }

  predicate HasPrefix(s: string, prefix: string) { prefix <= s }

  /** strings.Contains */
  predicate Contains(s: string, part: string) { part <= s || (s != "" && Contains(s[1..], part)) }

  /** The part behind the last separator. */
  function LastElement(path: string): string {
    if path == "" || IsSeparator(path[|path| - 1]) then ""
    else LastElement(path[..|path| - 1]) + [path[|path| - 1]]
  }

  function Trimmed(path: string): string {
    if path != "" && IsSeparator(path[|path| - 1]) then Trimmed(path[..|path| - 1]) else path
  }

  function WithoutDrive(path: string): string {
    if |path| >= 2 && path[1] == ':' && ('a' <= path[0] <= 'z' || 'A' <= path[0] <= 'Z') then path[2..] else path
  }

  /** filepath.Base */
  function Base(path: string): string {
    if path == "" then "."
    else
      var last := LastElement(WithoutDrive(Trimmed(path)));
      if last == "" then "\\" else last
  }

  /** filepath.Ext: from the last dot of the last element, or nothing. */
  function Ext(path: string): string {
    if path == "" || IsSeparator(path[|path| - 1]) then ""
    else if path[|path| - 1] == '.' then "."
    else
      var e := Ext(path[..|path| - 1]);
      if e == "" then "" else e + [path[|path| - 1]]
  }

  /** What makes a path noise: its extension, its name, or a part of it. */
  datatype Filter = Filter(exts: seq<string>, names: seq<string>, parts: seq<string>)

  const NOISY_EXTS: seq<string> :=
    [".tmp", ".temp", ".log", ".db-shm", ".db-wal", ".lock", ".etl", ".bak", ".crdownload", ".part", ".partial", ".swp",
     ".swo", ".pyc"]

  const NOISY_NAMES: seq<string> := ["thumbs.db", ".ds_store", "desktop.ini"]

  const NOISY_PARTS: seq<string> :=
    ["\\appdata\\local\\temp\\", "\\appdata\\local\\microsoft\\windows\\inetcache\\",
     "\\appdata\\local\\microsoft\\windows\\webcache\\", "\\appdata\\roaming\\microsoft\\windows\\recent\\",
     "\\appdata\\local\\packages\\", "\\appdata\\local\\crashdumps\\", "\\windows\\temp\\", "\\windows\\prefetch\\",
     "\\microsoft\\windows\\usrclass\\", "\\.git\\", "\\node_modules\\", "\\__pycache__\\"]

  /** The program's lists. */
  const PROGRAM_FILTER: Filter := Filter(NOISY_EXTS, NOISY_NAMES, NOISY_PARTS)

  predicate ContainsAny(s: string, parts: seq<string>) { exists part | part in parts :: Contains(s, part) }

  /** isNoisyPath, for a given filter. */
  predicate Noisy(path: string, f: Filter) {
    || Lower(Ext(path)) in f.exts
    || HasPrefix(Lower(Base(path)), "~$")
    || Lower(Base(path)) in f.names
    || ContainsAny(Lower(path), f.parts)
  }

  // --------------------------------------------------------- files in a root

  predicate PlainChar(c: char) { !IsSeparator(c) && c != '.' && !('A' <= c <= 'Z') }

  /** A path straight below a drive, from a name and an extension without dots or capitals. */
  function InRoot(drive: char, name: string, ext: string): string { [drive] + ":\\" + name + "." + ext }

  lemma {:induction false} LowerPlain(s: string)
    requires forall i | 0 <= i < |s| :: !('A' <= s[i] <= 'Z')
    ensures Lower(s) == s
  {
  }

  lemma {:induction false} ExtAfterDot(front: string, ext: string)
    requires forall i | 0 <= i < |ext| :: !IsSeparator(ext[i]) && ext[i] != '.'
    ensures Ext(front + "." + ext) == "." + ext
    decreases |ext|
  {
    var path := front + "." + ext;
    if ext == "" {
      assert path[|path| - 1] == '.';
    } else {
      var before := ext[..|ext| - 1];
      assert path[..|path| - 1] == front + "." + before;
      assert path[|path| - 1] == ext[|ext| - 1];
      ExtAfterDot(front, before);
      assert "." + ext == "." + before + [ext[|ext| - 1]];
    }
  }

  lemma {:induction false} LastAfterSeparator(front: string, name: string)
    requires forall i | 0 <= i < |name| :: !IsSeparator(name[i])
    ensures LastElement(front + "\\" + name) == name
    decreases |name|
  {
    var path := front + "\\" + name;
    if name == "" {
      assert path[|path| - 1] == '\\';
    } else {
      var before := name[..|name| - 1];
      assert path[..|path| - 1] == front + "\\" + before;
      assert path[|path| - 1] == name[|name| - 1];
      LastAfterSeparator(front, before);
      assert name == before + [name[|name| - 1]];
    }
  }

  predicate Delimited(part: string) { |part| >= 2 && part[0] == '\\' && part[|part| - 1] == '\\' }

  lemma PrefixEnds(part: string, s: string)
    requires Delimited(part)
    ensures part <= s ==> |part| <= |s| && s[0] == '\\' && s[|part| - 1] == '\\'
  {
  }

  /** A part that starts and ends with a backslash needs two of them. */
  lemma {:induction false} OneBackslash(s: string, at: int, part: string)
    requires Delimited(part) && forall i | 0 <= i < |s| && s[i] == '\\' :: i == at
    ensures !Contains(s, part)
    decreases |s|
  {
    PrefixEnds(part, s);
    if s != "" { OneBackslash(s[1..], at - 1, part); }
  }

  lemma {:induction false} ContainsFirst(s: string, part: string)
    requires part != "" && part[0] !in s
    ensures !Contains(s, part)
    decreases |s|
  {
    if s != "" { ContainsFirst(s[1..], part); }
  }

  /** Every part of a filter that stands for whole directories. */
  predicate WholeDirectories(f: Filter) { forall part | part in f.parts :: Delimited(part) }

  predicate Letter(c: char) { 'a' <= c <= 'z' || 'A' <= c <= 'Z' }

  predicate Plain(s: string) { forall i | 0 <= i < |s| :: PlainChar(s[i]) }

  lemma OnlyBackslash(drive: char, rest: string)
    requires Letter(drive) && forall i | 0 <= i < |rest| :: !IsSeparator(rest[i])
    ensures var path := [drive] + ":\\" + rest; forall i | 0 <= i < |path| && Lower(path)[i] == '\\' :: i == 2
  {
  }

  lemma InRootParts(drive: char, name: string, ext: string)
    requires Letter(drive) && name != "" && Plain(name) && Plain(ext)
    ensures var path := InRoot(drive, name, ext);
            Ext(path) == "." + ext && Base(path) == name + "." + ext
  {
    var path := InRoot(drive, name, ext);
    ExtAfterDot([drive] + ":\\" + name, ext);
    assert Trimmed(path) == path by {
      assert path[|path| - 1] == if ext == "" then '.' else ext[|ext| - 1];
    }
    assert WithoutDrive(path) == "" + "\\" + (name + "." + ext);
    LastAfterSeparator("", name + "." + ext);
  }

  lemma RootHasNoParts(drive: char, file: string, f: Filter)
    requires Letter(drive) && (forall i | 0 <= i < |file| :: !IsSeparator(file[i])) && WholeDirectories(f)
    ensures forall part | part in f.parts :: !Contains(Lower([drive] + ":\\" + file), part)
  {
    OnlyBackslash(drive, file);
    forall part | part in f.parts ensures !Contains(Lower([drive] + ":\\" + file), part) {
      OneBackslash(Lower([drive] + ":\\" + file), 2, part);
    }
  }

  /** A file right below a drive is noisy exactly by its extension or its name. */
  lemma InRootNoisyIff(drive: char, name: string, ext: string, f: Filter)
    requires Letter(drive) && name != "" && Plain(name) && Plain(ext) && WholeDirectories(f)
    ensures Noisy(InRoot(drive, name, ext), f)
       <==> "." + ext in f.exts || HasPrefix(name + "." + ext, "~$") || name + "." + ext in f.names
  {
    var path, file, dotted := InRoot(drive, name, ext), name + "." + ext, "." + ext;
    InRootParts(drive, name, ext);
    assert path == [drive] + ":\\" + file;
    RootHasNoParts(drive, file, f);
    LowerPlain(dotted);
    LowerPlain(file);
    NoisyByNames(path, file, dotted, f);
  }

  lemma NoisyByNames(path: string, file: string, dotted: string, f: Filter)
    requires Lower(Ext(path)) == dotted && Lower(Base(path)) == file
    requires forall part | part in f.parts :: !Contains(Lower(path), part)
    ensures Noisy(path, f) <==> dotted in f.exts || HasPrefix(file, "~$") || file in f.names
  {
  }

  // ------------------------------------------------- files in any directory

  predicate OccursAt(s: string, part: string, i: int) { 0 <= i <= |s| - |part| && s[i..i + |part|] == part }

  lemma OccursTail(s: string, part: string, i: int)
    requires s != "" && i >= 0
    ensures OccursAt(s[1..], part, i) <==> OccursAt(s, part, i + 1)
  {
    if i + 1 <= |s| - |part| { assert s[1..][i..i + |part|] == s[i + 1..i + 1 + |part|]; }
  }

  lemma {:induction false} ContainsIff(s: string, part: string)
    ensures Contains(s, part) <==> exists i :: OccursAt(s, part, i)
    decreases |s|
  {
    if part <= s { assert OccursAt(s, part, 0); }
    if s != "" {
      ContainsIff(s[1..], part);
      if i :| OccursAt(s[1..], part, i) { OccursTail(s, part, i); }
      if i :| OccursAt(s, part, i) {
        if i > 0 { OccursTail(s, part, i - 1); }
      }
    }
  }

  lemma LowerLetters(s: string, i: nat)
    requires i < |s|
    ensures 'A' <= s[i] <= 'Z' ==> 'a' <= Lower(s)[i] <= 'z' && Lower(s)[i] - 'a' == s[i] - 'A'
    ensures !('A' <= s[i] <= 'Z') ==> Lower(s)[i] == s[i]
  {
  }

  predicate NoSeparator(s: string) { forall i | 0 <= i < |s| :: !IsSeparator(s[i]) }

  lemma DirectoryParts(front: string, name: string, ext: string) returns (path: string, file: string)
    requires NoSeparator(name) && NoSeparator(ext) && '.' !in ext
    ensures file == name + "." + ext && path == front + "\\" + file
    ensures Ext(path) == "." + ext && Base(path) == file
  {
    file := name + "." + ext;
    path := front + "\\" + file;
    assert path == (front + "\\" + name) + "." + ext;
    ExtAfterDot(front + "\\" + name, ext);
    assert path[|path| - 1] == file[|file| - 1] && Trimmed(path) == path;
    LastAfterSeparator(front, file);
    if WithoutDrive(path) != path {
      assert path[1] == ':' && |front| >= 2;
      assert WithoutDrive(path) == front[2..] + "\\" + file;
      LastAfterSeparator(front[2..], file);
    }
  }

  /** A file with an extension, in any directory, is noise exactly if its extension or its name is listed, in
      either case, if the name starts as an Office temporary file, or if a listed part occurs in the path. */
  lemma NoisyIff(front: string, name: string, ext: string, f: Filter)
    requires NoSeparator(name) && NoSeparator(ext) && '.' !in ext
    ensures var file := name + "." + ext;
            var path := front + "\\" + file;
            Noisy(path, f) <==>
              || Lower("." + ext) in f.exts || Lower(file) in f.names || "~$" <= Lower(file)
              || AnyOccurs(Lower(path), f.parts)
  {
    var path, file := DirectoryParts(front, name, ext);
    assert path == front + "\\" + (name + "." + ext);
    NoisyByParts(path, file, "." + ext, f);
  }

  lemma NoisyByParts(path: string, file: string, dotted: string, f: Filter)
    requires Ext(path) == dotted && Base(path) == file
    ensures Noisy(path, f) <==>
              || Lower(dotted) in f.exts || Lower(file) in f.names || "~$" <= Lower(file)
              || AnyOccurs(Lower(path), f.parts)
  {
    SomePartOccurs(Lower(path), f.parts);
  }

  ghost predicate AnyOccurs(s: string, parts: seq<string>) { exists part, i :: part in parts && OccursAt(s, part, i) }

  lemma SomePartOccurs(s: string, parts: seq<string>)
    ensures ContainsAny(s, parts) <==> AnyOccurs(s, parts)
  {
    if part :| part in parts && Contains(s, part) {
      ContainsIff(s, part);
      var i :| OccursAt(s, part, i);
    }
    if part, i :| part in parts && OccursAt(s, part, i) { ContainsIff(s, part); }
  }

  lemma ProgramFilterHasWholeDirectories(f: Filter)
    requires f.parts == NOISY_PARTS
    ensures WholeDirectories(f)
  {
    forall i | 0 <= i < |f.parts| ensures Delimited(f.parts[i]) {}
  }
}
