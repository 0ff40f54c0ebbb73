/**
 * The ZIP export of all orders: one folder per order, numbered in
 * ascending id order and named after the client, holding an `info.txt`
 * with the order's details and the order's photos as `photo_N.jpg`.
 *
 * The database query, the photo downloads, NFD normalisation, the Polish
 * date formatting and the clock are parameters; the archive is the object
 * the handler fills, and its contents are what the download carries.
 */
module ExportTransports {
  import opened Wrappers
  import opened JsText
  import opened Sanitizing

  /**
   * A row of the orders table as the export reads it. `client_name`,
   * `address` and `type` are NOT NULL; every other column may be NULL.
   * `completedAt` is the stored instant, whatever its encoding.
   */
  datatype Row = Row(
    id: int,
    clientName: string,
    phoneNumber: Option<string>,
    address: string,
    timeRange: Option<string>,
    kind: string,
    description: Option<string>,
    completed: Option<bool>,
    completedAt: Option<int>,
    photoUrls: Option<seq<string>>)

  /** Why an export produced no archive, with the status the handler answers. */
  datatype Failure = NothingToExport | ExportFailed

  /** The `error` text of the failed export's response. */
  function Message(f: Failure): (m: string)
    ensures f.NothingToExport? ==> m == "Brak zleceń do eksportu."
    ensures f.ExportFailed? ==> m == "Błąd eksportu ZIP."
  {
    match f
    case NothingToExport => "Brak zleceń do eksportu."
    case ExportFailed => "Błąd eksportu ZIP."
  }

  /** The HTTP status of the failed export's response. */
  function Status(f: Failure): (code: int)
    ensures f.NothingToExport? ==> code == 404
    ensures f.ExportFailed? ==> code == 500
  {
    match f
    case NothingToExport => 404
    case ExportFailed => 500
  }

  // ---------------------------------------------------------------------
  // The query

  predicate AscendingIds(rows: seq<Row>)
  {
    forall i, j :: 0 <= i < j < |rows| ==> rows[i].id <= rows[j].id
  }

  function InsertById(r: Row, rows: seq<Row>): seq<Row>
  {
    if rows == [] || r.id <= rows[0].id then [r] + rows else [rows[0]] + InsertById(r, rows[1..])
  }

  /** `SELECT * FROM orders ORDER BY id ASC` over the table's rows in storage order. */
  function Selected(table: seq<Row>): seq<Row>
  {
    if table == [] then [] else InsertById(table[0], Selected(table[1..]))
  }

  /** Inserting adds the one row and loses none. */
  lemma {:induction false} InsertByIdCounts(r: Row, rows: seq<Row>)
    ensures multiset(InsertById(r, rows)) == multiset(rows) + multiset{r}
  {
    if rows != [] && r.id > rows[0].id {
      InsertByIdCounts(r, rows[1..]);
      assert rows == [rows[0]] + rows[1..];
    }
  }

  /** Inserting into rows in ascending id order keeps them in ascending id order. */
  lemma {:induction false} InsertByIdSorted(r: Row, rows: seq<Row>)
    requires AscendingIds(rows)
    ensures AscendingIds(InsertById(r, rows))
    ensures forall x :: x in InsertById(r, rows) ==> x == r || x in rows
  {
    if rows != [] && r.id > rows[0].id {
      var tail := InsertById(r, rows[1..]);
      InsertByIdSorted(r, rows[1..]);
      var s := [rows[0]] + tail;
      assert forall j :: 0 <= j < |tail| ==> rows[0].id <= tail[j].id by {
        forall j | 0 <= j < |tail|
          ensures rows[0].id <= tail[j].id
        {
          assert tail[j] in tail;
          if tail[j] != r {
            var l :| 0 <= l < |rows[1..]| && rows[1..][l] == tail[j];
            assert rows[l + 1] == tail[j];
          }
        }
      }
      assert forall i, j :: 0 <= i < j < |s| ==> s[i].id <= s[j].id by {
        forall i, j | 0 <= i < j < |s|
          ensures s[i].id <= s[j].id
        {
          if i > 0 {
            assert s[i] == tail[i - 1] && s[j] == tail[j - 1];
          } else {
            assert s[j] == tail[j - 1];
          }
        }
      }
      assert forall x :: x in rows[1..] ==> x in rows;
    }
  }

  /** The query answers every row of the table exactly once, in ascending id order. */
  lemma {:induction false} SelectedSpec(table: seq<Row>)
    ensures AscendingIds(Selected(table))
    ensures multiset(Selected(table)) == multiset(table)
  {
    if table != [] {
      SelectedSpec(table[1..]);
      InsertByIdSorted(table[0], Selected(table[1..]));
      InsertByIdCounts(table[0], Selected(table[1..]));
      assert table == [table[0]] + table[1..];
    }
  }

  // ---------------------------------------------------------------------
  // Names

  /** The folder number: `String(index + 1).padStart(2, "0")`. */
  function FolderNumber(index: nat): (number: string)
    ensures |number| >= 2 && AllDigits(number)
  {
    var digits := IntToString(index + 1);
    var number := PadStart(digits, 2, '0');
    NatToStringSpec(index + 1);
    PadStartSpec(digits, 2, '0');
    assert forall i :: 0 <= i < |number| ==> IsDigit(number[i]) by {
      forall i | 0 <= i < |number|
        ensures IsDigit(number[i])
      {
        if i >= |number| - |digits| {
          assert number[i] == number[|number| - |digits|..][i - (|number| - |digits|)];
        }
      }
    }
    number
  }

  /** A digit string, an underscore and a safe text make a safe text. */
  lemma SafeJoin(number: string, s: string)
    requires AllDigits(number) && AllSafe(s)
    ensures AllSafe(number + "_" + s) && '/' !in number + "_" + s
  {
    var name := number + "_" + s;
    forall i | 0 <= i < |name|
      ensures IsSafe(name[i])
    {
      if i < |number| {
        assert name[i] == number[i] && IsDigit(number[i]);
      } else if i > |number| {
        assert name[i] == s[i - |number| - 1];
      }
    }
    assert !IsSafe('/');
  }

  /** `${number}_${sanitize(client_name)}`: a safe name, free of `/`. */
  function FolderName(index: nat, clientName: string, nfd: string -> string): (name: string)
    ensures AllSafe(name) && '/' !in name
  {
    var number, sanitized := FolderNumber(index), Sanitize(nfd, clientName);
    SafeJoin(number, sanitized);
    number + "_" + sanitized
  }

  /** `photo_${i + 1}.jpg` for the photo at index `i` of the order's list. */
  function PhotoName(i: nat): (name: string)
    ensures name != "info.txt" && |name| >= 11 && name[..6] == "photo_"
  {
    "photo_" + IntToString(i + 1) + ".jpg"
  }

  /** The file name of the download for the ISO instant `now`: its date part. */
  function AttachmentName(now: string): string
  {
    "transporty_" + Split(now, 'T')[0] + ".zip"
  }

  // ---------------------------------------------------------------------
  // info.txt

  /** A template placeholder: a NULL column is written as `null`. */
  function Shown(v: Option<string>): (text: string)
    ensures v.Some? ==> text == v.value
    ensures v.None? ==> text == "null"
  {
    match v
    case Some(s) => s
    case None => "null"
  }

  /** Candidate line `k` of `info.txt`; the last one is empty when there is no completion time. */
  function InfoLine(r: Row, localeText: int -> string, k: nat): string
    requires k < 8
  {
    match k
    case 0 => "Klient: " + r.clientName
    case 1 => "Telefon: " + Shown(r.phoneNumber)
    case 2 => "Adres: " + r.address
    case 3 => "Godziny: " + Shown(r.timeRange)
    case 4 => "Rodzaj: " + r.kind
    case 5 => "Opis: " + (if r.description.Some? && r.description.value != "" then r.description.value else "Brak")
    case 6 => "Zrealizowano: " + (if r.completed == Some(true) then "Tak" else "Nie")
    case _ => if r.completedAt.Some? then "Czas realizacji: " + localeText(r.completedAt.value) else ""
  }

  /** The eight candidate lines, in order. */
  function InfoLines(r: Row, localeText: int -> string): (lines: seq<string>)
    ensures |lines| == 8
  {
    seq(8, k requires 0 <= k < 8 => InfoLine(r, localeText, k))
  }

  /** `.filter(Boolean)` on strings: the empty ones are dropped, the rest keep their order. */
  function NonEmpty(lines: seq<string>): (r: seq<string>)
    ensures forall k :: 0 <= k < |r| ==> r[k] != ""
  {
    if lines == [] then []
    else (if lines[0] != "" then [lines[0]] else []) + NonEmpty(lines[1..])
  }

  /** The text of `info.txt`: the non-empty lines joined by newlines. */
  function InfoText(r: Row, localeText: int -> string): string
  {
    Join(NonEmpty(InfoLines(r, localeText)), '\n')
  }

  // ---------------------------------------------------------------------
  // The archive

  /** What a file of the archive holds: text, or the bytes of a downloaded photo. */
  datatype Content = Text(text: string) | Bytes(data: seq<bv8>)

  /** `folder.file(name, content)`. */
  datatype Write = Write(folder: string, name: string, content: Content)

  /** The path of `name` inside the folder `folder` of the archive. */
  function Path(folder: string, name: string): string
  {
    folder + "/" + name
  }

  function WritePath(w: Write): string
  {
    Path(w.folder, w.name)
  }

  /** The archive's files after `writes`, in order: a path written again holds its last content. */
  function Build(files: map<string, Content>, writes: seq<Write>): map<string, Content>
  {
    if writes == [] then files
    else
      var w := writes[|writes| - 1];
      Build(files, writes[..|writes| - 1])[WritePath(w) := w.content]
  }

  /**
   * The library calls and I/O the export depends on: NFD normalisation,
   * `toLocaleString("pl-PL")` of a stored instant, and the download of a
   * photo URL (None when the fetch or the reading of its body throws).
   */
  datatype Env = Env(
    nfd: string -> string,
    localeText: int -> string,
    download: string -> Option<seq<bv8>>)

  /** The files of the first `n` photos; a photo whose download fails is skipped. */
  function PhotoWrites(folder: string, urls: seq<string>, download: string -> Option<seq<bv8>>, n: nat): (w: seq<Write>)
    requires n <= |urls|
    ensures forall i :: 0 <= i < |w| ==> w[i].folder == folder && w[i].name != "info.txt"
  {
    if n == 0 then []
    else
      var data := download(urls[n - 1]);
      PhotoWrites(folder, urls, download, n - 1)
        + (if data.Some? then [Write(folder, PhotoName(n - 1), Bytes(data.value))] else [])
  }

  /** The photos of a row: its URL list when the column holds a non-empty array, none otherwise. */
  function Photos(r: Row): seq<string>
  {
    if r.photoUrls.Some? && |r.photoUrls.value| > 0 then r.photoUrls.value else []
  }

  /** Everything one order adds: its `info.txt`, then its photos, all inside its folder. */
  function RowWrites(folder: string, r: Row, env: Env): (w: seq<Write>)
    ensures forall i :: 0 <= i < |w| ==> w[i].folder == folder
  {
    var urls := Photos(r);
    [Write(folder, "info.txt", Text(InfoText(r, env.localeText)))]
      + PhotoWrites(folder, urls, env.download, |urls|)
  }

  /** The folder name of every order, in order. */
  function FolderNames(rows: seq<Row>, nfd: string -> string): (names: seq<string>)
    ensures |names| == |rows|
  {
    seq(|rows|, k requires 0 <= k < |rows| => FolderName(k, rows[k].clientName, nfd))
  }

  /** Everything the first `n` orders add, in order, order `k` into folder `names[k]`. */
  function ExportWrites(names: seq<string>, rows: seq<Row>, env: Env, n: nat): seq<Write>
    requires n <= |rows| == |names|
  {
    if n == 0 then [] else ExportWrites(names, rows, env, n - 1) + RowWrites(names[n - 1], rows[n - 1], env)
  }

  /** The folders the first `n` orders create. */
  function FolderSet(names: seq<string>, n: nat): set<string>
    requires n <= |names|
  {
    if n == 0 then {} else FolderSet(names, n - 1) + {names[n - 1]}
  }

  /** The download: the archive's folders and files, and its file name. */
  datatype Download = Download(folders: set<string>, files: map<string, Content>, fileName: string)

  /** The whole export of the rows the query answers, for the instant `now`. */
  function Exported(rows: seq<Row>, env: Env, now: string): Download
  {
    var names := FolderNames(rows, env.nfd);
    Download(FolderSet(names, |rows|), Build(map[], ExportWrites(names, rows, env, |rows|)), AttachmentName(now))
  }

  /** The archive object the handler fills: its folders and its files by path. */
  class Archive {
    var folders: set<string>
    var files: map<string, Content>

    /** `new JSZip()`. */
    constructor ()
      ensures folders == {} && files == map[]
    {
      folders := {};
      files := map[];
    }

    /** `zip.folder(name)`: the folder exists afterwards; no file changes. */
    method Folder(name: string)
      modifies this
      ensures folders == old(folders) + {name} && files == old(files)
    {
      folders := folders + {name};
    }

    /** `folder.file(name, content)`: the path now holds `content`, replacing what it held. */
    method File(w: Write)
      modifies this
      ensures files == old(files)[WritePath(w) := w.content] && folders == old(folders)
    {
      files := files[WritePath(w) := w.content];
    }
  }

  /** The photo loop: each photo whose download succeeds is stored under its 1-based name. */
  method AddPhotos(zip: Archive, folder: string, urls: seq<string>, download: string -> Option<seq<bv8>>)
    modifies zip
    ensures zip.folders == old(zip.folders)
    ensures zip.files == Build(old(zip.files), PhotoWrites(folder, urls, download, |urls|))
  {
    var i := 0;
    while i < |urls|
      invariant 0 <= i <= |urls|
      invariant zip.folders == old(zip.folders)
      invariant zip.files == Build(old(zip.files), PhotoWrites(folder, urls, download, i))
    {
      var data := download(urls[i]);
      ghost var before := PhotoWrites(folder, urls, download, i);
      if data.Some? {
        var w := Write(folder, PhotoName(i), Bytes(data.value));
        zip.File(w);
        assert PhotoWrites(folder, urls, download, i + 1) == before + [w];
        assert (before + [w])[..|before|] == before;
      } else {
        assert PhotoWrites(folder, urls, download, i + 1) == before;
      }
      i := i + 1;
    }
  }

  /**
   * One order's folder: the folder, its `info.txt`, then each photo whose
   * download succeeds.
   */
  method AddOrder(zip: Archive, folder: string, r: Row, env: Env)
    modifies zip
    ensures zip.folders == old(zip.folders) + {folder}
    ensures zip.files == Build(old(zip.files), RowWrites(folder, r, env))
  {
    zip.Folder(folder);
    var info := Write(folder, "info.txt", Text(InfoText(r, env.localeText)));
    zip.File(info);
    ghost var withInfo := zip.files;
    assert withInfo == Build(old(zip.files), [info]);
    var urls := Photos(r);
    if r.photoUrls.Some? && |r.photoUrls.value| > 0 {
      AddPhotos(zip, folder, r.photoUrls.value, env.download);
    } else {
      assert PhotoWrites(folder, urls, env.download, |urls|) == [];
    }
    assert zip.files == Build(withInfo, PhotoWrites(folder, urls, env.download, |urls|));
    BuildAppend(old(zip.files), [info], PhotoWrites(folder, urls, env.download, |urls|));
  }

  /** One pass of the loop: order `index` adds its numbered folder on top of the orders before it. */
  method AddNumbered(zip: Archive, orders: seq<Row>, env: Env, index: nat, ghost names: seq<string>)
    requires index < |orders| && names == FolderNames(orders, env.nfd)
    requires zip.folders == FolderSet(names, index)
    requires zip.files == Build(map[], ExportWrites(names, orders, env, index))
    modifies zip
    ensures zip.folders == FolderSet(names, index + 1)
    ensures zip.files == Build(map[], ExportWrites(names, orders, env, index + 1))
  {
    var folderName := FolderName(index, orders[index].clientName, env.nfd);
    assert folderName == names[index];
    AddOrder(zip, folderName, orders[index], env);
    ExportStep(names, orders, env, index);
  }

  /** The loop over the selected orders: each adds its numbered folder, in order, to the empty archive. */
  method AddOrders(zip: Archive, orders: seq<Row>, env: Env)
    requires zip.folders == {} && zip.files == map[]
    modifies zip
    ensures zip.folders == FolderSet(FolderNames(orders, env.nfd), |orders|)
    ensures zip.files == Build(map[], ExportWrites(FolderNames(orders, env.nfd), orders, env, |orders|))
  {
    ghost var names := FolderNames(orders, env.nfd);
    assert |names| == |orders|;
    assert FolderSet(names, 0) == {} && ExportWrites(names, orders, env, 0) == [];
    var index := 0;
    while index < |orders|
      invariant 0 <= index <= |orders| == |names|
      invariant zip.folders == FolderSet(names, index)
      invariant zip.files == Build(map[], ExportWrites(names, orders, env, index))
    {
      AddNumbered(zip, orders, env, index, names);
      index := index + 1;
    }
  }

  /**
   * The export handler: a failed query answers 500, an empty table 404,
   * and otherwise every order, in ascending id order, adds its folder.
   */
  method Export(table: Option<seq<Row>>, env: Env, now: string) returns (res: Result<Download, Failure>)
    ensures table.None? ==> res == Err(ExportFailed)
    ensures table.Some? && table.value == [] ==> res == Err(NothingToExport)
    ensures table.Some? && table.value != [] ==> res == Ok(Exported(Selected(table.value), env, now))
  {
    if table.None? {
      return Err(ExportFailed);
    }
    var orders := Selected(table.value);
    SelectedSpec(table.value);
    assert |orders| == |multiset(orders)| == |table.value|;
    if |orders| == 0 {
      return Err(NothingToExport);
    }
    var zip := new Archive();
    AddOrders(zip, orders, env);
    return Ok(Download(zip.folders, zip.files, AttachmentName(now)));
  }

  /** The files after one more order: its writes on top of those before it. */
  lemma ExportStep(names: seq<string>, orders: seq<Row>, env: Env, index: nat)
    requires index < |orders| == |names|
    ensures Build(map[], ExportWrites(names, orders, env, index + 1))
         == Build(Build(map[], ExportWrites(names, orders, env, index)), RowWrites(names[index], orders[index], env))
  {
    BuildAppend(map[], ExportWrites(names, orders, env, index), RowWrites(names[index], orders[index], env));
  }

  /** Writing two lists in turn is writing their concatenation. */
  lemma {:induction false} BuildAppend(files: map<string, Content>, a: seq<Write>, b: seq<Write>)
    ensures Build(files, a + b) == Build(Build(files, a), b)
  {
    if b == [] {
      assert a + b == a;
    } else {
      var ab := a + b;
      assert ab[..|ab| - 1] == a + b[..|b| - 1];
      assert ab[|ab| - 1] == b[|b| - 1];
      BuildAppend(files, a, b[..|b| - 1]);
    }
  }
}
