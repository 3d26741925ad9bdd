/** Which files a source snapshot captures, told without the functions that
    decide it: by whole names, by the requirements files, by the extension in any
    case, and by the directories above. */
module SourceNames {
  import opened Results
  import opened Bytes
  import opened MemberPaths
  import opened Trees
  import opened Snapshots
  import Base64Url

  // ----- extensions ---------------------------------------------------------

  /** name is stem + ext, ext being a dot and what follows the last one, neither
      part empty. */
  predicate EndsIn(name: string, stem: string, ext: string) {
    name == stem + ext && stem != "" && |ext| > 1 && ext[0] == '.' && '.' !in ext[1..]
  }

  lemma {:induction false} NoDotAfter(name: string)
    ensures forall i | LastDot(name) < i < |name| :: name[i] != '.'
  {
    if name != "" && name[|name| - 1] != '.' { NoDotAfter(name[..|name| - 1]); }
  }

  lemma SuffixExactly(name: string, ext: string)
    requires ext != ""
    ensures Suffix(name) == ext <==> exists stem :: EndsIn(name, stem, ext)
  {
    NoDotAfter(name);
    if Suffix(name) == ext {
      var i := LastDot(name);
      assert forall c | c in ext[1..] :: exists k :: i < k < |name| && name[k] == c;
      assert EndsIn(name, name[..i], ext);
    }
    if stem :| EndsIn(name, stem, ext) {
      assert forall j | |stem| < j < |name| :: name[j] == ext[1..][j - |stem| - 1];
      LastDotAt(name, |stem|);
      assert name[|stem|..] == ext;
    }
  }

  /** The same letter in lower case. */
  predicate LowerOf(c: char, d: char) {
    || (c == d && c !in "ABCDEFGHIJKLMNOPQRSTUVWXYZ" && c as int != 0x212A)
    || (c in "ABCDEFGHIJKLMNOPQRSTUVWXYZ" && d as int == c as int + ('a' as int - 'A' as int))
    || (c as int == 0x212A && d == 'k')
  }

  lemma UpperExactly(c: char)
    ensures c in "ABCDEFGHIJKLMNOPQRSTUVWXYZ" <==> 'A' <= c <= 'Z'
  {
    var upper := "ABCDEFGHIJKLMNOPQRSTUVWXYZ";
    forall d: nat | d < 26 ensures upper[d] as int == 65 + d { Base64Url.Letters(d); }
    if 'A' <= c <= 'Z' { assert upper[c as int - 65] == c; }
  }

  lemma LowerExactly(s: string, t: string)
    ensures Lower(s) == t <==> |t| == |s| && forall i | 0 <= i < |s| :: LowerOf(s[i], t[i])
  {
    forall i | 0 <= i < |s| && i < |t| ensures LowerOf(s[i], t[i]) <==> LowerChar(s[i]) == t[i] { UpperExactly(s[i]); }
    if |t| == |s| && forall i | 0 <= i < |s| :: LowerOf(s[i], t[i]) { assert Lower(s) == t; }
  }

  /** The name ends in this extension, whatever the case of its letters. */
  ghost predicate HasExtension(name: string, extension: string) {
    exists stem, ext :: EndsIn(name, stem, ext) && |extension| == |ext|
                        && forall i | 0 <= i < |ext| :: LowerOf(ext[i], extension[i])
  }

  lemma HasExtensionExactly(name: string, extension: string)
    requires extension != ""
    ensures HasExtension(name, extension) <==> Lower(Suffix(name)) == extension
  {
    hide LowerOf, Lower;
    var suffix := Suffix(name);
    if suffix != "" {
      SuffixExactly(name, suffix);
      LowerExactly(suffix, extension);
    } else {
      LowerOfNothing();
    }
    forall stem, ext | EndsIn(name, stem, ext) ensures ext == suffix { SuffixExactly(name, ext); }
  }

  lemma LowerOfNothing()
    ensures Lower("") == ""
  {}

  // ----- names --------------------------------------------------------------

  /** A file is source by its name exactly when it is one of fourteen names, a
      requirements file, or has a source extension in any case. */
  lemma SourceNameExactly(name: string)
    ensures IsSourceName(name)
       <==> || name in SOURCE_FILENAMES
            || (exists middle: string :: name == ("requirements" + middle) + ".txt")
            || (exists extension :: extension in SOURCE_EXTENSIONS && HasExtension(name, extension))
  {
    hide HasExtension, Lower, Suffix, SOURCE_FILENAMES, SOURCE_EXTENSIONS;
    RequirementsExactly(name);
    NoEmptyExtension();
    var lower := Lower(Suffix(name));
    forall extension | extension in SOURCE_EXTENSIONS ensures HasExtension(name, extension) <==> lower == extension {
      HasExtensionExactly(name, extension);
    }
  }

  lemma RequirementsExactly(name: string)
    ensures "requirements" <= name && |name| >= 4 && name[|name| - 4..] == ".txt"
       <==> exists middle: string :: name == ("requirements" + middle) + ".txt"
  {
    if "requirements" <= name && |name| >= 4 && name[|name| - 4..] == ".txt" {
      var n := |name|;
      assert |"requirements"| == 12 && name[..12] == "requirements";
      assert n >= 16 by {
        assert name[n - 4] == '.';
        assert forall i | 0 <= i < 12 :: name[i] == "requirements"[i] != '.';
      }
      assert name == ("requirements" + name[12..n - 4]) + ".txt";
    }
    if middle: string :| name == ("requirements" + middle) + ".txt" {
      assert "requirements" <= name;
    }
  }

  /** Nothing below an excluded directory is captured, at any depth, and nothing
      else is left out that has a source name. */
  lemma CapturedExactly(p: Path)
    ensures IsCaptured(p)
       <==> p != [] && IsSourceName(p[|p| - 1])
            && !exists i :: 0 <= i < |p| - 1
                 && p[i] in {".minit", ".git", ".hg", ".svn", ".venv", "venv", "node_modules", "__pycache__",
                             ".pytest_cache", ".mypy_cache", ".ruff_cache", "dist", "build"}
  {
    hide IsSourceName;
  }

  lemma SomeSourceNames()
    ensures IsSourceName("requirements.txt") && IsSourceName("requirements-dev.txt") && IsSourceName("MAIN.PY")
    ensures IsSourceName("Dockerfile") && IsSourceName(".env.example")
    ensures !IsSourceName("notes.txt") && !IsSourceName(".py") && !IsSourceName("data.db")
  {
    hide SOURCE_EXTENSIONS, SOURCE_FILENAMES;
    assert "Dockerfile" in SOURCE_FILENAMES && ".env.example" in SOURCE_FILENAMES by { ListedNames(); }
    assert "requirements.txt" == ("requirements" + "") + ".txt";
    assert "requirements-dev.txt" == ("requirements" + "-dev") + ".txt";
    SourceNameExactly("requirements.txt");
    SourceNameExactly("requirements-dev.txt");
    LastDotAt("MAIN.PY", 4);
    assert "MAIN.PY"[4..] == ".PY" && Lower(".PY") == ".py";
    assert ".py" in SOURCE_EXTENSIONS by { ListedNames(); }
    LastDotAt(".py", 0);
    LastDotAt("notes.txt", 5);
    LastDotAt("data.db", 4);
    assert "notes.txt"[5..] == ".txt" && "data.db"[4..] == ".db" && Lower(".txt") == ".txt" && Lower(".db") == ".db";
    assert Lower("") == "";
    UnlistedNames();
    assert "notes.txt"[0] == 'n' && "data.db"[0] == 'd' && ".py"[0] == '.' && "requirements"[0] == 'r';
  }

  lemma ListedNames()
    ensures "Dockerfile" in SOURCE_FILENAMES && ".env.example" in SOURCE_FILENAMES && ".py" in SOURCE_EXTENSIONS
  {}

  lemma UnlistedNames()
    ensures "notes.txt" !in SOURCE_FILENAMES && "data.db" !in SOURCE_FILENAMES && ".py" !in SOURCE_FILENAMES
    ensures ".txt" !in SOURCE_EXTENSIONS && ".db" !in SOURCE_EXTENSIONS && "" !in SOURCE_EXTENSIONS
  {}

  // ----- a restore that goes through ----------------------------------------

  /** File i of the manifest is safe, and the archive has its content with the
      listed digest. */
  predicate Sound(sha: Hash, s: Snapshot, file: (string, bytes), p: Path, data: bytes) {
    SafeMemberPath(file.0) == Some(p) && ReadEntry(s, file.0) == Some(data) && sha(data) == file.1
  }

  /** A restore without a fault that completes has written every file of the
      manifest, checked against its digest, unless a later one has its place. */
  lemma {:induction false} CompletedRestoreMatches(sha: Hash, t: Tree, s: Snapshot, files: seq<(string, bytes)>, i: nat)
    requires RestoreFiles(sha, t, s, files, None).1 && i < |files|
    ensures exists p, data ::
              && Sound(sha, s, files[i], p, data)
              && ((forall j | i < j < |files| :: SafeMemberPath(files[j].0) != Some(p)) ==>
                    var t' := RestoreFiles(sha, t, s, files, None).0; p in t' && t'[p] == File(data))
    decreases |files|
  {
    hide SafeMemberPath, ReadEntry, WriteFile;
    var t1 := RestoreFile(sha, t, s, files[0]).value;
    if i > 0 {
      CompletedRestoreMatches(sha, t1, s, files[1..], i - 1);
      assert files[1..][i - 1] == files[i];
      assert forall j | i < j < |files| :: files[j] == files[1..][j - 1];
    } else {
      var (p, data) := CheckedFile(sha, s, files[0]).value;
      assert Sound(sha, s, files[0], p, data);
      RestoreIsOverlay(sha, t1, s, files[1..], None);
      SafePathNotEmpty(files[0].0);
      WrittenHere(t, p, data);
      if forall j | 0 < j < |files| :: SafeMemberPath(files[j].0) != Some(p) {
        assert !WrittenBy(files[1..], p);
      }
    }
  }

  lemma WrittenHere(t: Tree, p: Path, data: bytes)
    requires p != [] && WriteFile(t, p, data).Some?
    ensures p in WriteFile(t, p, data).value && WriteFile(t, p, data).value[p] == File(data)
  {}
}
