/** What a `PanelObj` shows of its data: `formatKey`, which turns a
    property name into a readable label, and the label/value rows its
    `render` writes for the truthy values. */
module Panels {
  import opened Base
  import opened Text
  import opened Objects
  import opened Json

  /** No lower-case ASCII letter is directly followed by an upper-case one. */
  predicate NoCamelJoin(s: string) {
    forall i :: 0 <= i < |s| - 1 ==> !JoinAt(s, i)
  }

  /** A lower-case letter at `i` directly followed by an upper-case one. */
  predicate JoinAt(s: string, i: int)
    requires 0 <= i < |s| - 1
  {
    IsLower(s[i]) && IsUpper(s[i + 1])
  }

  /** `s` without its spaces. */
  function Unspaced(s: string): (r: string)
    ensures |r| <= |s|
  {
    if s == [] then []
    else if s[0] == ' ' then Unspaced(s[1..])
    else [s[0]] + Unspaced(s[1..])
  }

  /** `key.replace(/([a-z])([A-Z])/g, "$1 $2")`: the global replace scans
      left to right and resumes after each match, so every lower-case
      letter directly followed by an upper-case one gets a space between
      them. */
  function SplitWords(s: string): (r: string)
    ensures |s| <= |r|
    ensures s != [] ==> r != [] && r[0] == s[0]
    decreases |s|
  {
    if |s| >= 2 && IsLower(s[0]) && IsUpper(s[1]) then [s[0], ' ', s[1]] + SplitWords(s[2..])
    else if s == [] then []
    else [s[0]] + SplitWords(s[1..])
  }

  /** After the replace, no word boundary is left joined. */
  lemma {:induction false} SplitWordsSeparates(s: string)
    ensures NoCamelJoin(SplitWords(s))
    decreases |s|
  {
    var r := SplitWords(s);
    if |s| >= 2 && IsLower(s[0]) && IsUpper(s[1]) {
      var t := SplitWords(s[2..]);
      SplitWordsSeparates(s[2..]);
      assert r == [s[0], ' ', s[1]] + t;
      forall i | 0 <= i < |r| - 1 ensures !JoinAt(r, i) {
        if i >= 3 {
          assert r[i] == t[i - 3] && r[i + 1] == t[i - 2];
          assert !JoinAt(t, i - 3);
        } else if i == 2 && t != [] {
          assert r[i] == s[1];
        }
      }
    } else if s != [] {
      var t := SplitWords(s[1..]);
      SplitWordsSeparates(s[1..]);
      assert r == [s[0]] + t;
      forall i | 0 <= i < |r| - 1 ensures !JoinAt(r, i) {
        if i >= 1 {
          assert r[i] == t[i - 1] && r[i + 1] == t[i];
          assert !JoinAt(t, i - 1);
        } else if |s| >= 2 {
          assert r[1] == s[1];
        }
      }
    }
  }

  /** The replace only adds spaces: with the spaces taken out, the text is
      what it was. */
  lemma {:induction false} SplitWordsOnlyAddsSpaces(s: string)
    ensures Unspaced(SplitWords(s)) == Unspaced(s)
    decreases |s|
  {
    if |s| >= 2 && IsLower(s[0]) && IsUpper(s[1]) {
      SplitWordsOnlyAddsSpaces(s[2..]);
      UnspacedJoin(s);
    } else if s != [] {
      SplitWordsOnlyAddsSpaces(s[1..]);
      UnspacedPlain(s);
    }
  }

  /** The text with one space put after every character that is a
      lower-case letter directly followed by an upper-case one. */
  function Spaced(s: string): (r: string)
    ensures |s| <= |r|
  {
    if s == [] then []
    else [s[0]] + (if |s| >= 2 && JoinAt(s, 0) then " " else []) + Spaced(s[1..])
  }

  /** The replace puts exactly one space in every join and changes nothing
      else: two joins never overlap, as the letter after a join is an
      upper-case one and so cannot start the next. */
  lemma {:induction false} SplitWordsIsSpaced(s: string)
    ensures SplitWords(s) == Spaced(s)
    decreases |s|
  {
    if |s| >= 2 && IsLower(s[0]) && IsUpper(s[1]) {
      SplitWordsIsSpaced(s[2..]);
      var t := s[1..];
      assert t[1..] == s[2..];
      assert !(|t| >= 2 && JoinAt(t, 0));
      assert Spaced(t) == [s[1]] + Spaced(s[2..]);
      assert Spaced(s) == [s[0], ' '] + Spaced(t);
    } else if s != [] {
      SplitWordsIsSpaced(s[1..]);
    }
  }

  /** The step of `SplitWordsOnlyAddsSpaces` at a join. */
  lemma UnspacedJoin(s: string)
    requires |s| >= 2 && IsLower(s[0]) && IsUpper(s[1])
    requires Unspaced(SplitWords(s[2..])) == Unspaced(s[2..])
    ensures Unspaced(SplitWords(s)) == Unspaced(s)
  {
    var t := SplitWords(s[2..]);
    assert SplitWords(s) == [s[0], ' ', s[1]] + t;
    assert [s[0], ' ', s[1]] + t == [s[0]] + ([' '] + ([s[1]] + t));
    UnspacedCons(s[0], [' '] + ([s[1]] + t));
    UnspacedCons(' ', [s[1]] + t);
    UnspacedCons(s[1], t);
    assert s == [s[0]] + ([s[1]] + s[2..]);
    UnspacedCons(s[0], [s[1]] + s[2..]);
    UnspacedCons(s[1], s[2..]);
  }

  /** The step of `SplitWordsOnlyAddsSpaces` where the first character is
      kept. */
  lemma UnspacedPlain(s: string)
    requires s != [] && !(|s| >= 2 && IsLower(s[0]) && IsUpper(s[1]))
    requires Unspaced(SplitWords(s[1..])) == Unspaced(s[1..])
    ensures Unspaced(SplitWords(s)) == Unspaced(s)
  {
    assert s == [s[0]] + s[1..];
    SplitWordsCons(s[0], s[1..]);
    UnspacedCons(s[0], SplitWords(s[1..]));
    UnspacedCons(s[0], s[1..]);
  }

  /** `Unspaced` drops a leading space and keeps any other character. */
  lemma UnspacedCons(x: char, u: string)
    ensures Unspaced([x] + u) == if x == ' ' then Unspaced(u) else [x] + Unspaced(u)
  {
    assert ([x] + u)[1..] == u;
  }

  /** `toUpperCase` on an ASCII letter. */
  function ToUpper(c: char): (u: char)
    ensures !IsLower(u)
    ensures IsLower(c) ==> IsUpper(u)
    ensures !IsLower(c) ==> u == c
    ensures IsLower(c) ==> u as int == c as int - 'a' as int + 'A' as int
  {
    if IsLower(c) then (c as int - 'a' as int + 'A' as int) as char else c
  }

  /** `replace(/^./, str => str.toUpperCase())`: `.` matches any character
      but a line terminator. */
  function CapitalizeFirst(s: string): (r: string)
    ensures |r| == |s|
    ensures forall i :: 0 < i < |s| ==> r[i] == s[i]
    ensures s != [] ==> r[0] == (if IsLineTerminator(s[0]) then s[0] else ToUpper(s[0]))
  {
    if s == [] || IsLineTerminator(s[0]) then s else [ToUpper(s[0])] + s[1..]
  }

  predicate IsLineTerminator(c: char) {
    c == '\n' || c == '\r' || c as int == 0x2028 || c as int == 0x2029
  }

  /** `PanelObj.formatKey`: the first `replace` of the source maps every
      match to itself and so changes nothing; then words are split,
      the first letter is capitalised and the result is trimmed. */
  function FormatKey(key: string): (r: string)
    ensures NoCamelJoin(r)
  {
    var w := SplitWords(key);
    SplitWordsSeparates(key);
    CapitalizeKeepsSeparated(w);
    TrimKeepsSeparated(CapitalizeFirst(w));
    Trim(CapitalizeFirst(w))
  }

  /** A suffix of text with no join has none. */
  lemma NoCamelJoinDrop(s: string, lo: int)
    requires NoCamelJoin(s) && 0 <= lo <= |s|
    ensures NoCamelJoin(s[lo..])
  {
    var r := s[lo..];
    forall i | 0 <= i < |r| - 1 ensures !JoinAt(r, i) {
      assert r[i] == s[lo + i] && r[i + 1] == s[lo + i + 1];
      assert !JoinAt(s, lo + i);
    }
  }

  /** A prefix of text with no join has none. */
  lemma NoCamelJoinTake(s: string, hi: int)
    requires NoCamelJoin(s) && 0 <= hi <= |s|
    ensures NoCamelJoin(s[..hi])
  {
    var r := s[..hi];
    forall i | 0 <= i < |r| - 1 ensures !JoinAt(r, i) {
      assert r[i] == s[i] && r[i + 1] == s[i + 1];
      assert !JoinAt(s, i);
    }
  }

  /** Trimming text with no join leaves none. */
  lemma TrimKeepsSeparated(s: string)
    requires NoCamelJoin(s)
    ensures NoCamelJoin(Trim(s))
  {
    var t := TrimStart(s);
    NoCamelJoinDrop(s, |s| - |t|);
    NoCamelJoinTake(t, |TrimEnd(t)|);
  }

  /** Capitalising the first character creates no join: an upper-case
      letter never ends one. */
  lemma CapitalizeKeepsSeparated(w: string)
    requires NoCamelJoin(w)
    ensures NoCamelJoin(CapitalizeFirst(w))
  {
    var c := CapitalizeFirst(w);
    forall i | 0 <= i < |c| - 1 ensures !JoinAt(c, i) {
      if i > 0 {
        assert c[i] == w[i] && c[i + 1] == w[i + 1];
        assert !JoinAt(w, i);
      }
    }
  }

  /** A key that starts with a visible character keeps it, capitalised, in
      front of its label. */
  lemma FormatKeyFirst(key: string)
    requires key != [] && !IsJsSpace(key[0])
    ensures FormatKey(key) != [] && FormatKey(key)[0] == ToUpper(key[0])
  {
    var c := CapitalizeFirst(SplitWords(key));
    assert c[0] == ToUpper(key[0]);
    assert !IsJsSpace(c[0]);
    assert TrimStart(c) == c;
    var r := TrimEnd(c);
    assert r != [];
    assert r[0] == c[0];
  }

  /** Text with no join of its own, and none where it meets what follows,
      passes through the replace unchanged. */
  lemma {:induction false} SplitWordsPlain(a: string, t: string)
    requires NoCamelJoin(a)
    requires a != [] && t != [] ==> !(IsLower(a[|a| - 1]) && IsUpper(t[0]))
    ensures SplitWords(a + t) == a + SplitWords(t)
    decreases |a|
  {
    if a == [] {
      assert a + t == t;
    } else {
      var c, u := a[0], a[1..] + t;
      NoCamelJoinTail(a);
      SplitWordsPlain(a[1..], t);
      assert u != [] ==> !(IsLower(c) && IsUpper(u[0])) by {
        if |a| > 1 {
          assert u[0] == a[1];
          assert !JoinAt(a, 0);
        } else if t != [] {
          assert u[0] == t[0];
        }
      }
      SplitWordsCons(c, u);
      ConsConcat(a, t);
      ConsConcat(a, SplitWords(t));
    }
  }

  lemma NoCamelJoinTail(a: string)
    requires a != [] && NoCamelJoin(a)
    ensures NoCamelJoin(a[1..])
  {
    forall i | 0 <= i < |a[1..]| - 1 ensures !JoinAt(a[1..], i) {
      assert a[1..][i] == a[i + 1] && a[1..][i + 1] == a[i + 2];
      assert !JoinAt(a, i + 1);
    }
  }

  /** A character that does not start a join is kept as it is. */
  lemma SplitWordsCons(c: char, u: string)
    requires u != [] ==> !(IsLower(c) && IsUpper(u[0]))
    ensures SplitWords([c] + u) == [c] + SplitWords(u)
  {
    assert ([c] + u)[1..] == u;
  }

  /** A lower-case letter followed by an upper-case one gets a space. */
  lemma SplitWordsJoin(c: char, d: char, t: string)
    requires IsLower(c) && IsUpper(d)
    ensures SplitWords([c, d] + t) == [c, ' ', d] + SplitWords(t)
  {
    assert ([c, d] + t)[2..] == t;
  }

  /** Text with no joined word boundary is left as it is. */
  lemma SplitWordsKeepsSeparated(s: string)
    requires NoCamelJoin(s)
    ensures SplitWords(s) == s
  {
    SplitWordsPlain(s, []);
    assert s + [] == s;
  }

  /** Text with no white space at either end is its own trim. */
  lemma TrimUnspaced(s: string)
    requires s != [] && !IsJsSpace(s[0]) && !IsJsSpace(s[|s| - 1])
    ensures Trim(s) == s
  {
    assert TrimStart(s) == s;
    assert TrimEnd(s) == s;
  }

  /** The label a panel shows at position `i`: the panel's own label there
      when it has a non-empty one, the formatted key otherwise. */
  function RowLabel(labels: seq<string>, i: int, key: string): string {
    if 0 <= i < |labels| && labels[i] != "" then labels[i] else FormatKey(key)
  }

  /** The label/value rows `render` writes: one per truthy value, in
      property order; falsy values write nothing. */
  function PanelRows(data: Props<Json>, labels: seq<string>): (rows: seq<(string, Json)>)
    ensures |rows| <= |data|
    ensures forall k :: 0 <= k < |rows| ==> Truthy(rows[k].1)
    decreases |data|
  {
    if data == [] then []
    else
      var n := |data| - 1;
      var front := PanelRows(data[..n], labels);
      if Truthy(data[n].1) then front + [(RowLabel(labels, n, data[n].0), data[n].1)] else front
  }

  /** The positions of the truthy values of `data`, in increasing order. */
  function TruthyPositions(data: Props<Json>): (ps: seq<int>)
    ensures forall k :: 0 <= k < |ps| ==> 0 <= ps[k] < |data| && Truthy(data[ps[k]].1)
    ensures forall k, l :: 0 <= k < l < |ps| ==> ps[k] < ps[l]
    ensures forall i :: 0 <= i < |data| && Truthy(data[i].1) ==> i in ps
    decreases |data|
  {
    if data == [] then []
    else
      var n := |data| - 1;
      var front := TruthyPositions(data[..n]);
      assert forall i :: 0 <= i < n ==> data[..n][i] == data[i];
      front + (if Truthy(data[n].1) then [n] else [])
  }

  /** `render` writes, in order, one row for each truthy position: the
      label of that position and its value. */
  lemma {:induction false} PanelRowsAtTruthyPositions(data: Props<Json>, labels: seq<string>)
    ensures var rows, ps := PanelRows(data, labels), TruthyPositions(data);
      && |rows| == |ps|
      && forall k :: 0 <= k < |rows| ==> rows[k] == (RowLabel(labels, ps[k], data[ps[k]].0), data[ps[k]].1)
    decreases |data|
  {
    if data != [] {
      var n := |data| - 1;
      var rows, ps := PanelRows(data, labels), TruthyPositions(data);
      var front, fps := PanelRows(data[..n], labels), TruthyPositions(data[..n]);
      PanelRowsAtTruthyPositions(data[..n], labels);
      if Truthy(data[n].1) {
        assert rows == front + [(RowLabel(labels, n, data[n].0), data[n].1)];
        assert ps == fps + [n];
      } else {
        assert rows == front && ps == fps;
      }
      forall k | 0 <= k < |front|
        ensures rows[k] == (RowLabel(labels, ps[k], data[ps[k]].0), data[ps[k]].1)
      {
        assert rows[k] == front[k] && ps[k] == fps[k];
        assert data[..n][fps[k]] == data[fps[k]];
      }
    }
  }

  /** Every truthy value is shown, with the label of its position. */
  lemma {:induction false} PanelRowsShowTruthy(data: Props<Json>, labels: seq<string>, i: int)
    requires 0 <= i < |data| && Truthy(data[i].1)
    ensures (RowLabel(labels, i, data[i].0), data[i].1) in PanelRows(data, labels)
    decreases |data|
  {
    var n := |data| - 1;
    if i < n {
      PanelRowsShowTruthy(data[..n], labels, i);
    }
  }

  /** Every row comes from a truthy value at some position. */
  lemma {:induction false} PanelRowsFromData(data: Props<Json>, labels: seq<string>, k: int)
    requires 0 <= k < |PanelRows(data, labels)|
    ensures exists i :: 0 <= i < |data| && PanelRows(data, labels)[k] == (RowLabel(labels, i, data[i].0), data[i].1)
    decreases |data|
  {
    var n := |data| - 1;
    var front := PanelRows(data[..n], labels);
    if k < |front| {
      PanelRowsFromData(data[..n], labels, k);
      var i :| 0 <= i < n && front[k] == (RowLabel(labels, i, data[..n][i].0), data[..n][i].1);
      assert data[..n][i] == data[i];
    } else {
      assert PanelRows(data, labels)[k] == (RowLabel(labels, n, data[n].0), data[n].1);
    }
  }
}

/** `formatKey` on field names of the wizard's forms. */
module PanelExamples {
  import opened Text
  import opened Panels

  /** `formatKey("altPhone")` is "Alt Phone". */
  lemma FormatKeyOfCamelCase()
    ensures FormatKey("altPhone") == "Alt Phone"
  {
    SplitCamelCase();
    CapitalizeCamelCase();
    var r := "Alt Phone";
    assert r[0] == 'A' && r[|r| - 1] == 'e';
    TrimUnspaced(r);
  }

  lemma SplitCamelCase()
    ensures SplitWords("altPhone") == "alt Phone"
  {
    SplitAl();
    SplitTPhone();
    assert "altPhone" == "al" + "tPhone";
  }

  lemma SplitAl()
    ensures SplitWords("al" + "tPhone") == "al" + SplitWords("tPhone")
  {
    SplitWordsPlain("al", "tPhone");
  }

  lemma SplitTPhone()
    ensures SplitWords("tPhone") == "t Phone"
  {
    SplitOfJoin("tPhone", "hone");
  }

  /** Splitting a lower/upper pair followed by text with no join. */
  lemma SplitOfJoin(s: string, t: string)
    requires |s| >= 2 && IsLower(s[0]) && IsUpper(s[1]) && s[2..] == t && NoCamelJoin(t)
    ensures SplitWords(s) == [s[0], ' ', s[1]] + t
  {
    assert s == [s[0], s[1]] + t;
    SplitWordsJoin(s[0], s[1], t);
    SplitWordsKeepsSeparated(t);
  }

  lemma CapitalizeCamelCase()
    ensures CapitalizeFirst("alt Phone") == "Alt Phone"
  {
  }

  /** `formatKey("s3-repname")` is "S3-repname". */
  lemma FormatKeyOfFieldName()
    ensures FormatKey("s3-repname") == "S3-repname"
  {
    SplitFieldName();
    CapitalizeFieldName();
    var r := "S3-repname";
    assert r[0] == 'S' && r[|r| - 1] == 'e';
    TrimUnspaced(r);
  }

  lemma SplitFieldName()
    ensures SplitWords("s3-repname") == "s3-repname"
  {
    var s := "s3-repname";
    forall i | 0 <= i < |s| - 1 ensures !JoinAt(s, i) {
      assert !IsUpper(s[i + 1]);
    }
    SplitWordsKeepsSeparated(s);
  }

  lemma CapitalizeFieldName()
    ensures CapitalizeFirst("s3-repname") == "S3-repname"
  {
  }
}
