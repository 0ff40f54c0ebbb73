/**
 * What the ZIP export promises, stated over the functions of
 * `ExportTransports`: folder names carry the order's position and never
 * collide, `info.txt` reads back as its lines, photo names never collide,
 * and the archive holds each order's text and each downloaded photo in
 * that order's own folder, and nothing of a photo whose download failed.
 */
module ExportFacts {
  import opened Wrappers
  import opened JsText
  import opened Sanitizing
  import opened ExportTransports

  // ---------------------------------------------------------------------
  // Names

  /** The part of a folder name before its first `_` is the order's 1-based position, at least two digits. */
  lemma FolderPosition(index: nat, clientName: string, nfd: string -> string)
    ensures var parts := Split(FolderName(index, clientName, nfd), '_');
            && parts[0] == FolderNumber(index)
            && |parts[0]| >= 2 && AllDigits(parts[0])
            && NumberOf(parts[0]) == Some(index + 1)
  {
    var number := FolderNumber(index);
    assert '_' !in number by {
      assert forall i :: 0 <= i < |number| ==> IsDigit(number[i]);
    }
    SplitAtSeparator(number, '_', Sanitize(nfd, clientName));
    NumberOfPadded(index + 1);
  }

  /** Two orders at different positions never share a folder, whatever their clients are called. */
  lemma FolderNamesDistinct(i: nat, j: nat, a: string, b: string, nfd: string -> string)
    requires i != j
    ensures FolderName(i, a, nfd) != FolderName(j, b, nfd)
  {
    FolderPosition(i, a, nfd);
    FolderPosition(j, b, nfd);
  }

  /** A photo's name is `photo_`, then its 1-based position in digits, then `.jpg`. */
  lemma PhotoPosition(i: nat)
    ensures var name := PhotoName(i);
            var digits := name[6..|name| - 4];
            && name[..6] == "photo_" && name[|name| - 4..] == ".jpg"
            && |digits| >= 1 && AllDigits(digits)
            && NumberOf(digits) == Some(i + 1)
  {
    var digits := NatToString(i + 1);
    NatToStringSpec(i + 1);
    NatToStringRoundTrip(i + 1);
    assert IntToString(i + 1) == digits;
    var name := PhotoName(i);
    assert name == "photo_" + digits + ".jpg";
    assert name[6..|name| - 4] == digits;
    assert name[|name| - 4..] == ".jpg";
    assert IsDigit(digits[0]);
  }

  /** Photo names never collide: the number in the name is the photo's 1-based position. */
  lemma PhotoNamesDistinct(i: nat, j: nat)
    requires i != j
    ensures PhotoName(i) != PhotoName(j)
  {
    PhotoPosition(i);
    PhotoPosition(j);
  }

  /** With no `T` in the date, the download is named `transporty_<date>.zip`. */
  lemma AttachmentDate(date: string, time: string)
    requires 'T' !in date
    ensures AttachmentName(date + "T" + time) == "transporty_" + date + ".zip"
  {
    SplitAtSeparator(date, 'T', time);
  }

  // ---------------------------------------------------------------------
  // info.txt

  /** `.filter(Boolean)` works piece by piece. */
  lemma {:induction false} NonEmptyAppend(a: seq<string>, b: seq<string>)
    ensures NonEmpty(a + b) == NonEmpty(a) + NonEmpty(b)
  {
    if a == [] {
      assert a + b == b;
    } else {
      assert (a + b)[1..] == a[1..] + b;
      NonEmptyAppend(a[1..], b);
    }
  }

  /** `.filter(Boolean)` keeps a list of non-empty strings as it is. */
  lemma {:induction false} NonEmptyKeepsAll(a: seq<string>)
    requires forall k :: 0 <= k < |a| ==> a[k] != ""
    ensures NonEmpty(a) == a
  {
    if a != [] {
      NonEmptyKeepsAll(a[1..]);
      assert [a[0]] + a[1..] == a;
    }
  }

  /**
   * The first seven lines are always there; the completion-time line is
   * there exactly when the order has a completion time.
   */
  lemma InfoLinesKept(r: Row, localeText: int -> string)
    ensures var lines := InfoLines(r, localeText);
            NonEmpty(lines) == lines[..7] + (if r.completedAt.Some? then [lines[7]] else [])
  {
    var lines := InfoLines(r, localeText);
    assert lines == lines[..7] + [lines[7]];
    NonEmptyAppend(lines[..7], [lines[7]]);
    assert forall k :: 0 <= k < 7 ==> lines[..7][k] != "" by {
      forall k | 0 <= k < 7
        ensures lines[..7][k] != ""
      {
        assert lines[..7][k] == InfoLine(r, localeText, k);
        assert |InfoLine(r, localeText, k)| >= 6;
      }
    }
    NonEmptyKeepsAll(lines[..7]);
    assert NonEmpty([lines[7]]) == (if lines[7] != "" then [lines[7]] else []) + NonEmpty([]);
  }

  /** What `info.txt` holds when no field has a line break of its own. */
  predicate SingleLineFields(r: Row, localeText: int -> string)
  {
    && '\n' !in r.clientName && '\n' !in Shown(r.phoneNumber) && '\n' !in r.address
    && '\n' !in Shown(r.timeRange) && '\n' !in r.kind
    && (r.description.Some? ==> '\n' !in r.description.value)
    && (r.completedAt.Some? ==> '\n' !in localeText(r.completedAt.value))
  }

  /**
   * Read back line by line, `info.txt` gives the client, phone, address,
   * hours and kind, the description or `Brak` when it is missing or empty,
   * `Tak` or `Nie` for completion, and the completion time exactly when
   * there is one; NULL columns read `null`.
   */
  lemma InfoTextLines(r: Row, localeText: int -> string)
    requires SingleLineFields(r, localeText)
    ensures var lines := Split(InfoText(r, localeText), '\n');
            && |lines| == (if r.completedAt.Some? then 8 else 7)
            && lines[0] == "Klient: " + r.clientName
            && lines[1] == "Telefon: " + Shown(r.phoneNumber)
            && lines[2] == "Adres: " + r.address
            && lines[3] == "Godziny: " + Shown(r.timeRange)
            && lines[4] == "Rodzaj: " + r.kind
            && (lines[5] == "Opis: Brak" <==> (r.description.None? || r.description.value in {"", "Brak"}))
            && (r.description.Some? && r.description.value != "" ==> lines[5] == "Opis: " + r.description.value)
            && (lines[6] == "Zrealizowano: Tak" <==> r.completed == Some(true))
            && (lines[6] != "Zrealizowano: Tak" ==> lines[6] == "Zrealizowano: Nie")
            && (r.completedAt.Some? ==> lines[7] == "Czas realizacji: " + localeText(r.completedAt.value))
  {
    InfoTextSplit(r, localeText);
    DescriptionLine(r.description);
    CompletionLine(r.completed);
  }

  /** `info.txt` read back line by line gives the kept candidate lines, in order. */
  lemma InfoTextSplit(r: Row, localeText: int -> string)
    requires SingleLineFields(r, localeText)
    ensures var lines := Split(InfoText(r, localeText), '\n');
            && |lines| == (if r.completedAt.Some? then 8 else 7)
            && forall k :: 0 <= k < |lines| ==> lines[k] == InfoLine(r, localeText, k)
  {
    var lines := InfoLines(r, localeText);
    InfoLinesKept(r, localeText);
    var kept := NonEmpty(lines);
    forall k | 0 <= k < |kept|
      ensures kept[k] == InfoLine(r, localeText, k) && '\n' !in kept[k]
    {
      assert kept[k] == lines[k];
    }
    SplitJoin(kept, '\n');
  }

  /** The description line reads `Opis: Brak` exactly when there is no description to show. */
  lemma DescriptionLine(description: Option<string>)
    ensures var line := "Opis: " + (if description.Some? && description.value != "" then description.value else "Brak");
            && (line == "Opis: Brak" <==> (description.None? || description.value in {"", "Brak"}))
            && (description.Some? && description.value != "" ==> line == "Opis: " + description.value)
  {
    if description.Some? && description.value != "" {
      var d := description.value;
      if "Opis: " + d == "Opis: Brak" {
        assert ("Opis: " + d)[6..] == d;
      }
    }
  }

  /** The completion line reads `Tak` exactly for a completed order, and `Nie` otherwise. */
  lemma CompletionLine(completed: Option<bool>)
    ensures var line := "Zrealizowano: " + (if completed == Some(true) then "Tak" else "Nie");
            && (line == "Zrealizowano: Tak" <==> completed == Some(true))
            && (line != "Zrealizowano: Tak" ==> line == "Zrealizowano: Nie")
  {
    assert "Zrealizowano: Nie" != "Zrealizowano: Tak" by {
      assert "Zrealizowano: Nie"[14] != "Zrealizowano: Tak"[14];
    }
  }

  // ---------------------------------------------------------------------
  // Paths and the archive

  /** A path splits back into its folder and its file name when the folder has no `/`. */
  lemma PathInjective(f1: string, n1: string, f2: string, n2: string)
    requires '/' !in f1 && '/' !in f2
    requires Path(f1, n1) == Path(f2, n2)
    ensures f1 == f2 && n1 == n2
  {
    var p := Path(f1, n1);
    assert p[|f1|] == '/' && p[|f2|] == '/';
    assert f1 == p[..|f1|] && f2 == p[..|f2|];
    assert n1 == p[|f1| + 1..] && n2 == p[|f2| + 1..];
  }

  /** The archive agrees with `m` at `p`: both lack it, or both hold the same content. */
  predicate Agree(files: map<string, Content>, m: map<string, Content>, p: string)
  {
    (p in files <==> p in m) && (p in files ==> files[p] == m[p])
  }

  /** A path no write names keeps what it held. */
  lemma {:induction false} BuildUntouched(m: map<string, Content>, writes: seq<Write>, p: string)
    requires forall i :: 0 <= i < |writes| ==> WritePath(writes[i]) != p
    ensures Agree(Build(m, writes), m, p)
  {
    if writes != [] {
      BuildUntouched(m, writes[..|writes| - 1], p);
    }
  }

  /** Writes into other folders leave every path of `folder` as it was. */
  lemma OtherFolderUntouched(m: map<string, Content>, writes: seq<Write>, other: string, folder: string, name: string)
    requires forall i :: 0 <= i < |writes| ==> writes[i].folder == other
    requires other != folder && '/' !in other && '/' !in folder
    ensures Agree(Build(m, writes), m, Path(folder, name))
  {
    forall i | 0 <= i < |writes|
      ensures WritePath(writes[i]) != Path(folder, name)
    {
      if WritePath(writes[i]) == Path(folder, name) {
        PathInjective(other, writes[i].name, folder, name);
      }
    }
    BuildUntouched(m, writes, Path(folder, name));
  }

  /**
   * Photo `j` of a folder is in the archive exactly when it is among the
   * photos written and its download succeeded, holding the downloaded
   * bytes; otherwise its path holds what it held before.
   */
  lemma {:induction false} PhotosBuilt(m: map<string, Content>, folder: string, urls: seq<string>,
                                       download: string -> Option<seq<bv8>>, n: nat, j: nat)
    requires n <= |urls| && '/' !in folder
    ensures var r := Build(m, PhotoWrites(folder, urls, download, n));
            var p := Path(folder, PhotoName(j));
            && (j < n && download(urls[j]).Some? ==> p in r && r[p] == Bytes(download(urls[j]).value))
            && (!(j < n && download(urls[j]).Some?) ==> Agree(r, m, p))
  {
    if n > 0 {
      PhotosBuilt(m, folder, urls, download, n - 1, j);
      PhotoStep(m, folder, urls, download, n);
      if j != n - 1 {
        PhotoPathsDiffer(folder, j, n - 1);
      }
    }
  }

  /** Photo `n - 1` adds at most its own path to the files of the photos before it. */
  lemma PhotoStep(m: map<string, Content>, folder: string, urls: seq<string>,
                  download: string -> Option<seq<bv8>>, n: nat)
    requires 0 < n <= |urls|
    ensures var r0 := Build(m, PhotoWrites(folder, urls, download, n - 1));
            var data := download(urls[n - 1]);
            Build(m, PhotoWrites(folder, urls, download, n))
              == if data.Some? then r0[Path(folder, PhotoName(n - 1)) := Bytes(data.value)] else r0
  {
    var before := PhotoWrites(folder, urls, download, n - 1);
    var data := download(urls[n - 1]);
    if data.Some? {
      var w := Write(folder, PhotoName(n - 1), Bytes(data.value));
      var all := before + [w];
      assert PhotoWrites(folder, urls, download, n) == all;
      assert all[..|all| - 1] == before && all[|all| - 1] == w;
    } else {
      assert PhotoWrites(folder, urls, download, n) == before;
    }
  }

  /** Two photos of one folder have different paths. */
  lemma PhotoPathsDiffer(folder: string, i: nat, j: nat)
    requires i != j && '/' !in folder
    ensures Path(folder, PhotoName(i)) != Path(folder, PhotoName(j))
  {
    PhotoNamesDistinct(i, j);
    if Path(folder, PhotoName(i)) == Path(folder, PhotoName(j)) {
      PathInjective(folder, PhotoName(i), folder, PhotoName(j));
    }
  }

  /** Folder names fit for the archive: none has a `/`, and no two are the same. */
  predicate SeparateFolders(names: seq<string>)
  {
    && (forall k :: 0 <= k < |names| ==> '/' !in names[k])
    && (forall i, j :: 0 <= i < j < |names| ==> names[i] != names[j])
  }

  /** The numbered folder names are fit for the archive. */
  lemma FolderNamesSeparate(rows: seq<Row>, nfd: string -> string)
    ensures SeparateFolders(FolderNames(rows, nfd))
  {
    var names := FolderNames(rows, nfd);
    forall i, j | 0 <= i < j < |names|
      ensures names[i] != names[j]
    {
      FolderNamesDistinct(i, j, rows[i].clientName, rows[j].clientName, nfd);
    }
  }

  /** The files after the first `n` orders. */
  function FilesAfter(names: seq<string>, rows: seq<Row>, env: Env, n: nat): map<string, Content>
    requires n <= |rows| == |names|
  {
    Build(map[], ExportWrites(names, rows, env, n))
  }

  /** Order `n - 1`'s step writes only into its own folder. */
  lemma StepInFolder(names: seq<string>, rows: seq<Row>, env: Env, n: nat)
    requires 0 < n <= |rows| == |names|
    ensures exists step: seq<Write> ::
              && (forall i :: 0 <= i < |step| ==> step[i].folder == names[n - 1])
              && ExportWrites(names, rows, env, n) == ExportWrites(names, rows, env, n - 1) + step
  {
    var step := RowWrites(names[n - 1], rows[n - 1], env);
    assert ExportWrites(names, rows, env, n) == ExportWrites(names, rows, env, n - 1) + step;
  }

  /** An order's step leaves every other order's folder alone. */
  lemma StepKeepsOther(names: seq<string>, rows: seq<Row>, env: Env, n: nat, k: nat, name: string)
    requires |rows| == |names| && SeparateFolders(names)
    requires 0 < n <= |rows| && k < |rows| && k != n - 1
    ensures Agree(FilesAfter(names, rows, env, n), FilesAfter(names, rows, env, n - 1), Path(names[k], name))
  {
    var before := FilesAfter(names, rows, env, n - 1);
    StepInFolder(names, rows, env, n);
    var step: seq<Write> :| (forall i :: 0 <= i < |step| ==> step[i].folder == names[n - 1])
                && ExportWrites(names, rows, env, n) == ExportWrites(names, rows, env, n - 1) + step;
    BuildAppend(map[], ExportWrites(names, rows, env, n - 1), step);
    if k < n - 1 {
      assert names[k] != names[n - 1];
    } else {
      assert names[n - 1] != names[k];
    }
    OtherFolderUntouched(before, step, names[n - 1], names[k], name);
  }

  /** Before order `k` is reached, nothing exists in its folder. */
  lemma {:induction false} FolderEmptyBefore(names: seq<string>, rows: seq<Row>, env: Env, n: nat, k: nat, name: string)
    requires |rows| == |names| && SeparateFolders(names)
    requires n <= k < |rows|
    ensures Path(names[k], name) !in FilesAfter(names, rows, env, n)
  {
    if n > 0 {
      FolderEmptyBefore(names, rows, env, n - 1, k, name);
      StepKeepsOther(names, rows, env, n, k, name);
    }
  }

  lemma AppendAssoc(a: seq<Write>, b: seq<Write>, c: seq<Write>)
    ensures (a + b) + c == a + (b + c)
  {
  }

  /** After order `k`, the later orders leave its folder alone. */
  lemma FolderKeptAfter(names: seq<string>, rows: seq<Row>, env: Env, n: nat, k: nat, name: string)
    requires |rows| == |names| && SeparateFolders(names)
    requires k < n <= |rows|
    ensures Agree(FilesAfter(names, rows, env, n), FilesAfter(names, rows, env, k + 1), Path(names[k], name))
  {
    var p := Path(names[k], name);
    LaterWrites(names, rows, env, k + 1, n);
    var rest: seq<Write> :|
      ExportWrites(names, rows, env, n) == ExportWrites(names, rows, env, k + 1) + rest && InFolders(rest, names, k + 1, n);
    BuildAppend(map[], ExportWrites(names, rows, env, k + 1), rest);
    forall i | 0 <= i < |rest| ensures WritePath(rest[i]) != p {
      assert InFolder(rest[i], names, k + 1, n);
      var j :| k + 1 <= j < n && 0 <= j < |names| && rest[i].folder == names[j];
      if WritePath(rest[i]) == p {
        PathInjective(names[j], rest[i].name, names[k], name);
      }
    }
    BuildUntouched(FilesAfter(names, rows, env, k + 1), rest, p);
  }

  /** Every write goes into the folder of one of the orders `m` to `n - 1`. */
  predicate InFolders(ws: seq<Write>, names: seq<string>, m: int, n: int)
  {
    forall i :: 0 <= i < |ws| ==> InFolder(ws[i], names, m, n)
  }

  /** The write goes into the folder of one of the orders `m` to `n - 1`. */
  predicate InFolder(w: Write, names: seq<string>, m: int, n: int)
  {
    exists j :: m <= j < n && 0 <= j < |names| && w.folder == names[j]
  }

  /** The writes of orders `m` to `n - 1` follow those of the first `m`, each into one of their folders. */
  lemma {:induction false} LaterWrites(names: seq<string>, rows: seq<Row>, env: Env, m: nat, n: nat)
    requires m <= n <= |rows| == |names|
    ensures exists rest: seq<Write> ::
              ExportWrites(names, rows, env, n) == ExportWrites(names, rows, env, m) + rest && InFolders(rest, names, m, n)
  {
    if n == m {
      assert ExportWrites(names, rows, env, n) == ExportWrites(names, rows, env, m) + [];
      assert InFolders([], names, m, n);
    } else {
      LaterWrites(names, rows, env, m, n - 1);
      var rest: seq<Write> :|
        ExportWrites(names, rows, env, n - 1) == ExportWrites(names, rows, env, m) + rest && InFolders(rest, names, m, n - 1);
      StepInFolder(names, rows, env, n);
      var step: seq<Write> :|
        && (forall i :: 0 <= i < |step| ==> step[i].folder == names[n - 1])
        && ExportWrites(names, rows, env, n) == ExportWrites(names, rows, env, n - 1) + step;
      AppendAssoc(ExportWrites(names, rows, env, m), rest, step);
      InFoldersAppend(rest, step, names, m, n);
    }
  }

  lemma InFoldersAppend(rest: seq<Write>, step: seq<Write>, names: seq<string>, m: nat, n: nat)
    requires m < n <= |names| && InFolders(rest, names, m, n - 1)
    requires forall i :: 0 <= i < |step| ==> step[i].folder == names[n - 1]
    ensures InFolders(rest + step, names, m, n)
  {
    var more := rest + step;
    forall i | 0 <= i < |more| ensures InFolder(more[i], names, m, n) {
      if i < |rest| {
        assert InFolder(rest[i], names, m, n - 1);
        var j :| m <= j < n - 1 && 0 <= j < |names| && rest[i].folder == names[j];
        assert more[i] == rest[i];
      } else {
        assert more[i] == step[i - |rest|];
        assert m <= n - 1 < n && 0 <= n - 1 < |names| && more[i].folder == names[n - 1];
      }
    }
  }

  /** Order `k`'s own step: its `info.txt`, then its downloaded photos, into an empty folder. */
  lemma OrderStep(names: seq<string>, rows: seq<Row>, env: Env, k: nat, j: nat)
    requires |rows| == |names| && SeparateFolders(names)
    requires k < |rows|
    ensures var files := FilesAfter(names, rows, env, k + 1);
            var urls := Photos(rows[k]);
            var p := Path(names[k], PhotoName(j));
            && Path(names[k], "info.txt") in files
            && files[Path(names[k], "info.txt")] == Text(InfoText(rows[k], env.localeText))
            && (p in files <==> j < |urls| && env.download(urls[j]).Some?)
            && (p in files ==> files[p] == Bytes(env.download(urls[j]).value))
  {
    var folder := names[k];
    var urls := Photos(rows[k]);
    var info := Write(folder, "info.txt", Text(InfoText(rows[k], env.localeText)));
    var photos := PhotoWrites(folder, urls, env.download, |urls|);
    var start := FilesAfter(names, rows, env, k);
    ExportStep(names, rows, env, k);
    assert RowWrites(folder, rows[k], env) == [info] + photos;
    BuildAppend(start, [info], photos);
    var withInfo := Build(start, [info]);
    assert withInfo == start[Path(folder, "info.txt") := info.content];
    forall i | 0 <= i < |photos|
      ensures WritePath(photos[i]) != Path(folder, "info.txt")
    {
      if WritePath(photos[i]) == Path(folder, "info.txt") {
        PathInjective(folder, photos[i].name, folder, "info.txt");
      }
    }
    BuildUntouched(withInfo, photos, Path(folder, "info.txt"));
    PhotosBuilt(withInfo, folder, urls, env.download, |urls|, j);
    FolderEmptyBefore(names, rows, env, k, k, PhotoName(j));
    if Path(folder, PhotoName(j)) == Path(folder, "info.txt") {
      PathInjective(folder, PhotoName(j), folder, "info.txt");
    }
  }

  // ---------------------------------------------------------------------
  // The download

  /** The folders are those of the orders. */
  lemma {:induction false} FolderSetMembers(names: seq<string>, n: nat, f: string)
    requires n <= |names|
    ensures f in FolderSet(names, n) <==> f in names[..n]
  {
    if n > 0 {
      FolderSetMembers(names, n - 1, f);
      assert names[..n] == names[..n - 1] + [names[n - 1]];
    }
  }

  /** Distinct folder names make one folder per order. */
  lemma {:induction false} FolderPerOrder(names: seq<string>, n: nat)
    requires n <= |names| && SeparateFolders(names)
    ensures |FolderSet(names, n)| == n
  {
    if n > 0 {
      FolderPerOrder(names, n - 1);
      FolderSetMembers(names, n - 1, names[n - 1]);
    }
  }

  /**
   * The download holds, for the order at position `k` in ascending id
   * order, its `info.txt` in its own numbered folder, and photo `j` of it
   * exactly when the order has that photo and its download succeeded, as
   * the downloaded bytes.
   */
  lemma ExportedOrder(rows: seq<Row>, env: Env, now: string, k: nat, j: nat)
    requires k < |rows|
    ensures var files := Exported(rows, env, now).files;
            var folder := FolderNames(rows, env.nfd)[k];
            var urls := Photos(rows[k]);
            var p := Path(folder, PhotoName(j));
            && folder == FolderName(k, rows[k].clientName, env.nfd)
            && Path(folder, "info.txt") in files
            && files[Path(folder, "info.txt")] == Text(InfoText(rows[k], env.localeText))
            && (p in files <==> j < |urls| && env.download(urls[j]).Some?)
            && (p in files ==> files[p] == Bytes(env.download(urls[j]).value))
  {
    var names := FolderNames(rows, env.nfd);
    FolderNamesSeparate(rows, env.nfd);
    OrderStep(names, rows, env, k, j);
    FolderKeptAfter(names, rows, env, |rows|, k, "info.txt");
    FolderKeptAfter(names, rows, env, |rows|, k, PhotoName(j));
  }

  /** The download has one folder per order, each order's numbered folder, and is named after the date of `now`. */
  lemma ExportedFolders(rows: seq<Row>, env: Env, date: string, time: string)
    requires 'T' !in date
    ensures var d := Exported(rows, env, date + "T" + time);
            && |d.folders| == |rows|
            && (forall f :: f in d.folders <==> f in FolderNames(rows, env.nfd))
            && d.fileName == "transporty_" + date + ".zip"
  {
    var names := FolderNames(rows, env.nfd);
    FolderNamesSeparate(rows, env.nfd);
    FolderPerOrder(names, |rows|);
    forall f
      ensures f in FolderSet(names, |rows|) <==> f in names
    {
      FolderSetMembers(names, |rows|, f);
      assert names[..|rows|] == names;
    }
    AttachmentDate(date, time);
  }
}
