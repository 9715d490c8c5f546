/** Step 4: the table of uploaded documents (`TableObj`), its lightbox form,
    and the total size shown under it (`Step4Handler`). A row is the
    lightbox's form data with its `s5-size` entry rewritten as a readable
    size. */
module Documents {
  import opened Base
  import opened Objects
  import opened Text
  import opened Lightbox

  type Row = Props<string>

  const SizeField := "s5-size"

  /** `(n / 1024).toFixed(2)` counts hundredths of a megabyte: the integer
      nearest to 100n/1024, the larger one on a tie (section 21.1.3.3 of
      ECMA-262). */
  function Hundredths(n: nat): (h: nat)
    ensures 1024 * h - 512 <= 100 * n < 1024 * h + 512
  {
    (100 * n + 512) / 1024
  }

  /** The text of `(n / 1024).toFixed(2)` for `n >= 1024`: the whole
      megabytes, a point, and two digits of hundredths. */
  function MegabyteText(n: nat): (r: string)
    requires n >= 1024
    ensures |r| >= 4 && r[|r| - 3] == '.'
  {
    var h := Hundredths(n);
    NatToString(h / 100) + "." + [DigitChar(h / 10 % 10), DigitChar(h % 10)]
  }

  /** The megabyte text is the decimal digits of the hundredths with a point
      put before the last two: nothing else is added or lost. */
  lemma MegabyteTextDigits(n: nat)
    requires n >= 1024
    ensures var r := MegabyteText(n);
      r[..|r| - 3] + r[|r| - 2..] == NatToString(Hundredths(n))
  {
    var h := Hundredths(n);
    var r := MegabyteText(n);
    assert h >= 100;
    assert h / 10 / 10 == h / 100;
    NatToStringLastDigit(h);
    NatToStringLastDigit(h / 10);
    assert r[..|r| - 3] == NatToString(h / 100);
    assert r[|r| - 2..] == [DigitChar(h / 10 % 10), DigitChar(h % 10)];
  }

  lemma NatToStringLastDigit(m: nat)
    requires m >= 10
    ensures NatToString(m) == NatToString(m / 10) + [DigitChar(m % 10)]
  {
  }

  /** The size text `handleFormSubmit` and `calculateTotalFileSize` write
      for a size in kilobytes: below 1024 a text `parseInt` reads back as
      the size, then " KB"; otherwise the hundredths of a megabyte with a
      point before their last two digits, then " MB". */
  function SizeText(n: int): (r: string)
    ensures |r| >= 4 && (n >= 1024 ==> |r| >= 7)
    ensures n < 1024 ==> r[|r| - 3..] == " KB" && ParseInt(r) == Some(n)
    ensures n >= 1024 ==>
      && r[|r| - 3..] == " MB" && r[|r| - 6] == '.'
      && r[..|r| - 6] + r[|r| - 5..|r| - 3] == NatToString(Hundredths(n))
  {
    if n < 1024 then
      ParseIntOfIntToString(n, " KB");
      IntToString(n) + " KB"
    else
      MegabyteTextDigits(n);
      MegabyteText(n) + " MB"
  }

  /** `parseInt(row["s5-size"], 10) || 0`: the leading integer of the
      row's size text; a missing entry reads as "undefined", which is NaN. */
  function SizeOf(row: Row): int {
    match Get(row, SizeField)
    case Some(s) => ParseIntOrZero(s)
    case None => 0
  }

  /** `xs.reduce((sum, x) => sum + f(x), 0)`. */
  function SumBy<T>(xs: seq<T>, f: T -> int): int {
    if xs == [] then 0 else SumBy(xs[..|xs| - 1], f) + f(xs[|xs| - 1])
  }

  /** The sum `calculateTotalFileSize` reduces the rows to. */
  function TotalSize(rows: seq<Row>): int {
    SumBy(rows, SizeOf)
  }

  /** The text `calculateTotalFileSize` shows. */
  function TotalText(rows: seq<Row>): string {
    SizeText(TotalSize(rows))
  }

  /** `parseInt` reads a size text back as the kilobytes below 1024, but
      only as the whole megabytes from 1024 on: a row of "1.50 MB" counts
      as 1 towards the total. */
  lemma ReadBackSize(n: int)
    ensures ParseInt(SizeText(n)) == Some(if n < 1024 then n else Hundredths(n) / 100)
  {
    if n < 1024 {
      ParseIntOfIntToString(n, " KB");
    } else {
      var h := Hundredths(n);
      assert SizeText(n) == IntToString(h / 100) + ("." + [DigitChar(h / 10 % 10), DigitChar(h % 10)] + " MB");
      ParseIntOfIntToString(h / 100, "." + [DigitChar(h / 10 % 10), DigitChar(h % 10)] + " MB");
    }
  }

  /** `parseInt(formData["s5-size"], 10) || 0`. */
  function SubmittedSize(fd: Row): int {
    ParseIntOrZero(Get(fd, SizeField).GetOr("undefined"))
  }

  /** The row `handleFormSubmit` stores: the form data with its size entry
      rewritten as a size text. */
  function SubmittedRow(fd: Row): (row: Row)
    ensures Get(row, SizeField) == Some(SizeText(SubmittedSize(fd)))
    ensures forall k :: k != SizeField ==> Get(row, k) == Get(fd, k)
  {
    var row := Put(fd, SizeField, SizeText(SubmittedSize(fd)));
    assert forall k :: k != SizeField ==> Get(row, k) == Get(fd, k) by {
      forall k { GetPut(fd, SizeField, SizeText(SubmittedSize(fd)), k); }
    }
    row
  }

  /** The size a submitted row carries is what the total counts for it:
      exact below 1024 kilobytes, whole megabytes from there on. */
  lemma SubmittedRowSize(fd: Row)
    ensures var n := SubmittedSize(fd);
      SizeOf(SubmittedRow(fd)) == if n < 1024 then n else Hundredths(n) / 100
  {
    ReadBackSize(SubmittedSize(fd));
  }

  lemma {:induction false} SumByConcat<T>(a: seq<T>, b: seq<T>, f: T -> int)
    ensures SumBy(a + b, f) == SumBy(a, f) + SumBy(b, f)
  {
    if b != [] {
      assert (a + b)[..|a + b| - 1] == a + b[..|b| - 1];
      SumByConcat(a, b[..|b| - 1], f);
    } else {
      assert a + b == a;
    }
  }

  lemma SumByAppend<T>(xs: seq<T>, x: T, f: T -> int)
    ensures SumBy(xs + [x], f) == SumBy(xs, f) + f(x)
  {
    assert (xs + [x])[..|xs|] == xs;
  }

  /** The sum of a sequence split around index `i`. */
  lemma SumByAround<T>(xs: seq<T>, i: int, f: T -> int)
    requires 0 <= i < |xs|
    ensures SumBy(xs, f) == SumBy(xs[..i], f) + f(xs[i]) + SumBy(xs[i + 1..], f)
  {
    var front := xs[..i] + [xs[i]];
    assert xs == front + xs[i + 1..];
    SumByConcat(front, xs[i + 1..], f);
    SumByAppend(xs[..i], xs[i], f);
  }

  /** Adding a row adds its size to the total. */
  lemma TotalSizeAppend(rows: seq<Row>, row: Row)
    ensures TotalSize(rows + [row]) == TotalSize(rows) + SizeOf(row)
  {
    SumByAppend(rows, row, SizeOf);
  }

  /** Deleting a row takes exactly its size off the total. */
  lemma TotalSizeDelete(rows: seq<Row>, i: int)
    requires 0 <= i < |rows|
    ensures TotalSize(SpliceOne(rows, i)) == TotalSize(rows) - SizeOf(rows[i])
  {
    SumByAround(rows, i, SizeOf);
    assert SpliceOne(rows, i) == rows[..i] + rows[i + 1..];
    SumByConcat(rows[..i], rows[i + 1..], SizeOf);
  }

  /** Replacing a row swaps its size for the new one's. */
  lemma TotalSizeReplace(rows: seq<Row>, i: int, row: Row)
    requires 0 <= i < |rows|
    ensures TotalSize(rows[i := row]) == TotalSize(rows) - SizeOf(rows[i]) + SizeOf(row)
  {
    var after := rows[i := row];
    SumByAround(rows, i, SizeOf);
    SumByAround(after, i, SizeOf);
    assert after[..i] == rows[..i] && after[i + 1..] == rows[i + 1..];
  }

  function Sum(ns: seq<int>): int {
    if ns == [] then 0 else Sum(ns[..|ns| - 1]) + ns[|ns| - 1]
  }

  lemma SumPair(a: int, b: int)
    ensures Sum([a, b]) == a + b
  {
    assert Sum([a]) == a by {
      assert [a][..0] == [];
    }
    assert [a, b][..1] == [a];
  }

  /** Summing `f` over `xs` sums the values `f` takes there. */
  lemma {:induction false} SumByValues<T>(xs: seq<T>, f: T -> int, ns: seq<int>)
    requires |xs| == |ns|
    requires forall k :: 0 <= k < |xs| ==> f(xs[k]) == ns[k]
    ensures SumBy(xs, f) == Sum(ns)
  {
    if xs != [] {
      var k := |xs| - 1;
      assert forall j :: 0 <= j < k ==> xs[..k][j] == xs[j] && ns[..k][j] == ns[j];
      SumByValues(xs[..k], f, ns[..k]);
    }
  }

  /** While every row was submitted with fewer than 1024 kilobytes, the
      total is the exact sum of the submitted sizes. */
  lemma TotalOfKilobyteRows(rows: seq<Row>, sizes: seq<int>)
    requires |rows| == |sizes|
    requires forall k :: 0 <= k < |rows| ==> sizes[k] < 1024 && Get(rows[k], SizeField) == Some(SizeText(sizes[k]))
    ensures TotalSize(rows) == Sum(sizes)
  {
    forall k | 0 <= k < |rows| ensures SizeOf(rows[k]) == sizes[k] {
      KilobyteRowSize(rows[k], sizes[k]);
    }
    SumByValues(rows, SizeOf, sizes);
  }

  lemma KilobyteRowSize(row: Row, n: int)
    requires n < 1024 && Get(row, SizeField) == Some(SizeText(n))
    ensures SizeOf(row) == n
  {
    ReadBackSize(n);
  }

  lemma KilobyteTextExamples()
    ensures SizeText(500) == "500 KB"
    ensures SizeText(600) == "600 KB"
  {
    KilobyteText(500);
    KilobyteText(600);
    DigitsExamples();
  }

  lemma KilobyteText(n: int)
    requires n < 1024
    ensures SizeText(n) == IntToString(n) + " KB"
  {
  }

  lemma DigitsExamples()
    ensures IntToString(0) == "0" && IntToString(500) == "500" && IntToString(600) == "600"
  {
  }

  lemma MegabyteTextExamples()
    ensures SizeText(1536) == "1.50 MB"
    ensures SizeText(1100) == "1.07 MB"
  {
    assert Hundredths(1536) == 150;
    assert Hundredths(1100) == 107;
  }

  /** Two documents of 500 and 600 kilobytes total "1.07 MB". */
  lemma TotalExample()
    ensures TotalText([[(SizeField, "500 KB")], [(SizeField, "600 KB")]]) == "1.07 MB"
  {
    KilobyteTotalExample();
    MegabyteTextExamples();
  }

  lemma KilobyteTotalExample()
    ensures TotalSize([[(SizeField, "500 KB")], [(SizeField, "600 KB")]]) == 1100
  {
    KilobyteTextExamples();
    KilobyteTotal(500, 600);
  }

  /** Two rows of `a` and `b` kilobytes, both below 1024, total `a + b`. */
  lemma KilobyteTotal(a: int, b: int)
    requires a < 1024 && b < 1024
    ensures TotalSize([[(SizeField, SizeText(a))], [(SizeField, SizeText(b))]]) == a + b
  {
    var r0: Row := [(SizeField, SizeText(a))];
    var r1: Row := [(SizeField, SizeText(b))];
    GetAt(r0, 0);
    GetAt(r1, 0);
    KilobyteRowSize(r0, a);
    KilobyteRowSize(r1, b);
    SumByValues([r0, r1], SizeOf, [a, b]);
    SumPair(a, b);
  }

  /** An empty table totals "0 KB". */
  lemma EmptyTotalText()
    ensures TotalText([]) == "0 KB"
  {
    assert TotalText([]) == SizeText(0);
    KilobyteText(0);
    DigitsExamples();
  }

  /** A table's rows, in display order. */
  class TableObj {
    var rows: seq<Row>

    constructor ()
      ensures rows == []
    {
      rows := [];
    }

    /** `addRow(data)`: the row goes last. */
    method AddRow(data: Row)
      modifies this
      ensures rows == old(rows) + [data]
    {
      rows := rows + [data];
    }

    /** `rows[i] = data` followed by `refreshTable()`, which re-renders the
        rows without changing them. */
    method ReplaceRow(i: int, data: Row)
      requires 0 <= i < |rows|
      modifies this
      ensures rows == old(rows)[i := data]
    {
      rows := rows[i := data];
    }

    /** `emitEditEvent(index)`: the button's `data-index` text is parsed
        by `parseInt` with no radix, and an edit request for that row and
        its data goes out only if the row exists. */
    method EmitEditEvent(index: string) returns (request: Option<(int, Row)>)
      ensures request.Some? <==> ParseIntAuto(index).Some? && 0 <= ParseIntAuto(index).value < |rows|
      ensures request.Some? ==> request.value == (ParseIntAuto(index).value, rows[ParseIntAuto(index).value])
    {
      var i := ParseIntAuto(index);
      if i.Some? && 0 <= i.value < |rows| {
        request := Some((i.value, rows[i.value]));
      } else {
        request := None;
      }
    }

    /** `deleteRow(index)`: `splice(parseInt(index), 1)`, with no radix;
        NaN counts as 0. */
    method DeleteRow(index: string)
      modifies this
      ensures rows == SpliceOne(old(rows), ParseIntAuto(index).GetOr(0))
    {
      rows := SpliceOne(rows, ParseIntAuto(index).GetOr(0));
    }
  }

  /** The `data-index` every row's buttons carry is the row's position
      written as `${rowIndex}`; parsing it back names that same row. */
  lemma ButtonIndexNamesRow(i: nat)
    ensures ParseIntAuto(IntToString(i)) == Some(i)
  {
    ParseIntAutoOfIntToString(i);
  }

  class Step4Handler {
    const table: TableObj
    const lightbox: FormLightbox
    /** The file-name and size inputs of the lightbox form. */
    var fileName: string
    var sizeInput: string
    /** The text of `#uploadedfiles-size`. */
    var totalText: string

    ghost predicate Valid()
      reads this, table
    {
      totalText == TotalText(table.rows)
    }

    /** `new Step4Handler()`: an empty table, its own lightbox, and the
        total computed once. */
    constructor ()
      ensures Valid() && fresh(table) && fresh(lightbox)
      ensures table.rows == [] && totalText == "0 KB"
      ensures !lightbox.isOpen && lightbox.editIndex == None
    {
      table := new TableObj();
      lightbox := new FormLightbox();
      fileName := "";
      sizeInput := "";
      totalText := "";
      new;
      CalculateTotalFileSize();
      EmptyTotalText();
    }

    /** `calculateTotalFileSize()`. */
    method CalculateTotalFileSize()
      modifies this`totalText
      ensures Valid()
    {
      var total := 0;
      var i := 0;
      while i < |table.rows|
        invariant 0 <= i <= |table.rows|
        invariant total == TotalSize(table.rows[..i])
      {
        assert table.rows[..i + 1][..i] == table.rows[..i];
        total := total + SizeOf(table.rows[i]);
        i := i + 1;
      }
      assert table.rows[..i] == table.rows;
      totalText := SizeText(total);
    }

    /** `selectFile(file)`: the trimmed file name goes into the form and the
        size input gets a made-up size; `roll` stands for
        `Math.floor(Math.random() * 450)`. */
    method SelectFile(name: string, roll: int)
      requires 0 <= roll < 450
      modifies this`fileName, this`sizeInput
      ensures fileName == Trim(name) && sizeInput == IntToString(roll + 50)
      ensures 50 <= ParseIntOrZero(sizeInput) < 500
    {
      fileName := Trim(name);
      sizeInput := IntToString(roll + 50);
      ParseIntOfIntToString(roll + 50, "");
      assert sizeInput + "" == sizeInput;
    }

    /** `handleFormSubmit(formData)`: the size entry is rewritten as its
        size text; with an edit index the row at that position is replaced
        and the index cleared, otherwise the row is added last. The total is
        then recomputed. */
    method HandleFormSubmit(fd: Row)
      requires lightbox.editIndex.Some? ==>
        lightbox.editIndex.value.Position? && 0 <= lightbox.editIndex.value.i < |table.rows|
      modifies table, lightbox, this`totalText
      ensures Valid()
      ensures match old(lightbox.editIndex)
        case None => table.rows == old(table.rows) + [SubmittedRow(fd)]
        case Some(t) => table.rows == old(table.rows)[t.i := SubmittedRow(fd)]
      ensures lightbox.editIndex == None && lightbox.isOpen == old(lightbox.isOpen)
    {
      StoreRow(SubmittedRow(fd));
      CalculateTotalFileSize();
    }

    /** The part of `handleFormSubmit` that stores the row. */
    method StoreRow(row: Row)
      requires lightbox.editIndex.Some? ==>
        lightbox.editIndex.value.Position? && 0 <= lightbox.editIndex.value.i < |table.rows|
      modifies table, lightbox
      ensures match old(lightbox.editIndex)
        case None => table.rows == old(table.rows) + [row]
        case Some(t) => table.rows == old(table.rows)[t.i := row]
      ensures lightbox.editIndex == None && lightbox.isOpen == old(lightbox.isOpen)
    {
      var editIndex := lightbox.GetEditIndex();
      if editIndex.Some? {
        table.ReplaceRow(editIndex.value.i, row);
        lightbox.ClearEditIndex();
      } else {
        table.AddRow(row);
      }
    }

    /** An edit button: `emitEditEvent` on the button's index text, then
        `openEditLightbox`, which records the position, fills the form from
        the row and opens the lightbox. Returns the row shown, if any. */
    method RequestEdit(index: string) returns (shown: Option<Row>)
      modifies lightbox
      ensures shown.Some? <==> ParseIntAuto(index).Some? && 0 <= ParseIntAuto(index).value < |table.rows|
      ensures shown.Some? ==>
        && shown.value == table.rows[ParseIntAuto(index).value]
        && lightbox.isOpen && lightbox.editIndex == Some(Position(ParseIntAuto(index).value))
      ensures shown.None? ==> lightbox.isOpen == old(lightbox.isOpen) && lightbox.editIndex == old(lightbox.editIndex)
    {
      var request := table.EmitEditEvent(index);
      if request.Some? {
        lightbox.SetEditIndex(Position(request.value.0));
        lightbox.OpenLightbox();
        shown := Some(request.value.1);
      } else {
        shown := None;
      }
    }

    /** A delete button: `deleteRow`, whose `rowDeleted` event recomputes
        the total. */
    method DeleteRow(index: string)
      modifies table, this`totalText
      ensures table.rows == SpliceOne(old(table.rows), ParseIntAuto(index).GetOr(0))
      ensures Valid()
    {
      table.DeleteRow(index);
      CalculateTotalFileSize();
    }
  }
}
