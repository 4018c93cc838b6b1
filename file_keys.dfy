/**
 * Table names derived from CSV file names, and the loop that loads every
 * listed file into a dictionary keyed by that name (olist/data.py).
 */
module FileKeys {

  import opened Tables

  /** p occurs somewhere in s. */
  predicate Contains(s: string, p: string)
    decreases |s|
  {
    |p| <= |s| && (s[..|p|] == p || (|s| > 0 && Contains(s[1..], p)))
  }

  /**
   * Python's str.replace(p, ''): scans left to right and removes every
   * non-overlapping occurrence of p; the text left behind is not rescanned.
   */
  function RemoveAll(s: string, p: string): (r: string)
    requires |p| > 0
    ensures |r| <= |s|
    ensures !Contains(s, p) ==> r == s
    decreases |s|
  {
    if |s| < |p| then s
    else if s[..|p|] == p then RemoveAll(s[|p|..], p)
    else [s[0]] + RemoveAll(s[1..], p)
  }

  const Prefix: string := "olist_"
  const DatasetSuffix: string := "_dataset.csv"
  const CsvSuffix: string := ".csv"

  /** key_from_file_name: three replace-all passes in this fixed order. */
  function KeyFromFileName(fileName: string): string
  {
    RemoveAll(RemoveAll(RemoveAll(fileName, Prefix), DatasetSuffix), CsvSuffix)
  }

  /** The key is never longer than the file name. */
  lemma KeyNoLonger(fileName: string)
    ensures |KeyFromFileName(fileName)| <= |fileName|
  {
  }

  /** A file name holding none of the three patterns is its own key. */
  lemma KeyOfPlainName(fileName: string)
    requires !Contains(fileName, Prefix)
    requires !Contains(fileName, DatasetSuffix)
    requires !Contains(fileName, CsvSuffix)
    ensures KeyFromFileName(fileName) == fileName
  {
  }

  /** No proper prefix of p is also a suffix of p. */
  predicate BorderFree(p: string)
  {
    forall k :: 0 < k < |p| ==> p[..k] != p[|p| - k..]
  }

  /** A border-free q cannot start inside a q-free x and run into a q that follows it. */
  lemma NotAtFront(x: string, q: string)
    requires x != [] && |q| > 0 && BorderFree(q)
    requires !Contains(x, q)
    ensures (x + q)[..|q|] != q
  {
    var s := x + q;
    if |x| >= |q| {
      assert s[..|q|] == x[..|q|];
    } else {
      var k := |q| - |x|;
      assert s[..|q|][|x|..] == s[|x|..|q|] == q[..k];
      assert q[|q| - k..] == q[|x|..];
    }
  }

  /** Removing a border-free pattern that occurs only as the suffix strips that suffix. */
  lemma {:induction false} RemoveTrailing(x: string, q: string)
    requires |q| > 0 && BorderFree(q)
    requires !Contains(x, q)
    ensures RemoveAll(x + q, q) == x
    decreases |x|
  {
    var s := x + q;
    if x == [] {
      assert s[..|q|] == q && s[|q|..] == [];
    } else {
      NotAtFront(x, q);
      assert !Contains(x[1..], q);
      RemoveTrailing(x[1..], q);
      assert s[1..] == x[1..] + q;
    }
  }

  lemma DatasetSuffixBorderFree()
    ensures BorderFree(DatasetSuffix)
  {
    forall k | 0 < k < |DatasetSuffix|
      ensures DatasetSuffix[..k] != DatasetSuffix[|DatasetSuffix| - k..]
    {
      assert DatasetSuffix[..k][0] == '_';
      assert DatasetSuffix[|DatasetSuffix| - k..][0] != '_';
    }
  }

  lemma CsvSuffixBorderFree()
    ensures BorderFree(CsvSuffix)
  {
    forall k | 0 < k < |CsvSuffix|
      ensures CsvSuffix[..k] != CsvSuffix[|CsvSuffix| - k..]
    {
      assert CsvSuffix[..k][0] == '.';
      assert CsvSuffix[|CsvSuffix| - k..][0] != '.';
    }
  }

  /** "olist_X_dataset.csv" has key "X". */
  lemma KeyOfDatasetFile(x: string)
    requires !Contains(x + DatasetSuffix, Prefix)
    requires !Contains(x, DatasetSuffix)
    requires !Contains(x, CsvSuffix)
    ensures KeyFromFileName(Prefix + x + DatasetSuffix) == x
  {
    var s := Prefix + x + DatasetSuffix;
    assert s[..|Prefix|] == Prefix;
    assert s[|Prefix|..] == x + DatasetSuffix;
    assert RemoveAll(s, Prefix) == x + DatasetSuffix;
    DatasetSuffixBorderFree();
    RemoveTrailing(x, DatasetSuffix);
  }

  /** "X.csv" has key "X". */
  lemma KeyOfCsvFile(x: string)
    requires !Contains(x + CsvSuffix, Prefix)
    requires !Contains(x + CsvSuffix, DatasetSuffix)
    requires !Contains(x, CsvSuffix)
    ensures KeyFromFileName(x + CsvSuffix) == x
  {
    CsvSuffixBorderFree();
    RemoveTrailing(x, CsvSuffix);
  }

  /** A pattern with a character that s lacks does not occur in s. */
  lemma {:induction false} MissingChar(s: string, p: string, c: char)
    requires c in p && c !in s
    ensures !Contains(s, p)
    decreases |s|
  {
    if |p| <= |s| {
      var k :| 0 <= k < |p| && p[k] == c;
      assert s[k] in s;
      assert s[..|p|][k] != p[k];
      if |s| > 0 {
        assert forall i :: 0 <= i < |s[1..]| ==> s[1..][i] == s[i + 1];
        MissingChar(s[1..], p, c);
      }
    }
  }

  /** "olist_X_dataset.csv" has key X when X holds neither 'l' nor '.'. */
  lemma KeyOfSimpleDatasetFile(x: string)
    requires 'l' !in x && '.' !in x
    ensures KeyFromFileName(Prefix + x + DatasetSuffix) == x
  {
    assert 'l' !in DatasetSuffix;
    MissingChar(x + DatasetSuffix, Prefix, 'l');
    MissingChar(x, DatasetSuffix, '.');
    MissingChar(x, CsvSuffix, '.');
    KeyOfDatasetFile(x);
  }

  /**
   * get_matching_table finds olist_orders_dataset.csv, olist_order_items_dataset.csv
   * and olist_order_reviews_dataset.csv under the keys it looks up.
   */
  lemma MatchingTableKeys()
    ensures KeyFromFileName(Prefix + "orders" + DatasetSuffix) == "orders"
    ensures KeyFromFileName(Prefix + "order_items" + DatasetSuffix) == "order_items"
    ensures KeyFromFileName(Prefix + "order_reviews" + DatasetSuffix) == "order_reviews"
  {
    KeyOfSimpleDatasetFile("orders");
    KeyOfSimpleDatasetFile("order_items");
    KeyOfSimpleDatasetFile("order_reviews");
  }

  /** The index of the last file in names[..n] whose key is k, if any. */
  function LastWithKey(names: seq<string>, n: nat, k: string): (r: Option<nat>)
    requires n <= |names|
    ensures r.Some? ==> r.value < n && KeyFromFileName(names[r.value]) == k
    ensures r.Some? ==> forall j :: r.value < j < n ==> KeyFromFileName(names[j]) != k
    ensures r.None? ==> forall j :: 0 <= j < n ==> KeyFromFileName(names[j]) != k
  {
    if n == 0 then None
    else if KeyFromFileName(names[n - 1]) == k then Some(n - 1)
    else LastWithKey(names, n - 1, k)
  }

  /**
   * The loop of get_data: every listed file is read and stored under its key;
   * a later file overwrites an earlier one with the same key.
   * Reading a file is the parameter `read`.
   */
  method LoadData<T>(fileNames: seq<string>, read: string -> T) returns (data: map<string, T>)
    ensures data.Keys == set f | f in fileNames :: KeyFromFileName(f)
    ensures forall i :: 0 <= i < |fileNames| &&
              (forall j :: i < j < |fileNames| ==> KeyFromFileName(fileNames[j]) != KeyFromFileName(fileNames[i]))
              ==> data[KeyFromFileName(fileNames[i])] == read(fileNames[i])
  {
    data := map[];
    for n := 0 to |fileNames|
      invariant data.Keys == set f | f in fileNames[..n] :: KeyFromFileName(f)
      invariant forall k :: k in data ==>
                  LastWithKey(fileNames, n, k).Some? && data[k] == read(fileNames[LastWithKey(fileNames, n, k).value])
    {
      var file := fileNames[n];
      data := data[KeyFromFileName(file) := read(file)];
      assert fileNames[..n + 1] == fileNames[..n] + [file];
    }
    assert fileNames[..|fileNames|] == fileNames;
    forall i | 0 <= i < |fileNames| &&
        (forall j :: i < j < |fileNames| ==> KeyFromFileName(fileNames[j]) != KeyFromFileName(fileNames[i]))
      ensures data[KeyFromFileName(fileNames[i])] == read(fileNames[i])
    {
      var k := KeyFromFileName(fileNames[i]);
      assert fileNames[i] in fileNames;
      var last := LastWithKey(fileNames, |fileNames|, k);
      assert last.value == i;
    }
  }
}
