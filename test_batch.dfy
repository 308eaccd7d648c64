/** The dataset strings of XGBoostTestBatch.java. A dataset name may carry
    a tree limit after an '@' ("Iris@5"); parseDataset splits it off and
    getOptions turns it into the converter options. */
module TestBatch {
  import opened JavaLang
  import opened Decimal

  /** String.indexOf(char): the first position of `c` in `s`, or -1. */
  function IndexOf(s: string, c: char): (r: int)
    ensures -1 <= r < |s|
    ensures r == -1 <==> c !in s
    ensures r >= 0 ==> s[r] == c && c !in s[..r]
  {
    if |s| == 0 then -1
    else if s[0] == c then 0
    else
      var i := IndexOf(s[1..], c);
      if i == -1 then -1 else i + 1
  }

  /** parseDataset: a dataset without '@' is one part, unchanged; otherwise
      the parts are the text before the first '@', which holds no '@', and
      all the text after it, and joining them with '@' restores the
      dataset. */
  function ParseDataset(dataset: string): (parts: seq<string>)
    ensures |parts| == 1 || |parts| == 2
    ensures |parts| == 1 <==> '@' !in dataset
    ensures |parts| == 1 ==> parts[0] == dataset
    ensures |parts| == 2 ==> '@' !in parts[0] && parts[0] + "@" + parts[1] == dataset
  {
    var index := IndexOf(dataset, '@');
    if index > -1 then
      assert dataset[..index] + "@" + dataset[index + 1..] == dataset;
      [dataset[..index], dataset[index + 1..]]
    else
      [dataset]
  }

  /** Splitting undoes joining: a prefix without '@', an '@' and any suffix
      come back as exactly that prefix and suffix. */
  lemma SplitJoin(prefix: string, suffix: string)
    requires '@' !in prefix
    ensures ParseDataset(prefix + "@" + suffix) == [prefix, suffix]
  {
    var s := prefix + "@" + suffix;
    var index := IndexOf(s, '@');
    assert s[|prefix|] == '@';
    assert index == |prefix|;
    assert s[..index] == prefix;
    assert s[index + 1..] == suffix;
  }

  /** A java.util.LinkedHashMap as a value: `keys` is the iteration order
      (the order in which keys were first inserted) and `values` the
      mapping. */
  datatype LinkedHashMap<K, V> = LinkedHashMap(keys: seq<K>, values: map<K, V>) {

    /** Every key is listed exactly once, and the listed keys are the map's
        keys. */
    ghost predicate Valid() {
      && (forall i, j :: 0 <= i < j < |keys| ==> keys[i] != keys[j])
      && values.Keys == set k | k in keys
    }

    /** put(k, v): a new key joins the end of the iteration order; a key
        already present keeps its place and takes the new value. */
    function Put(k: K, v: V): LinkedHashMap<K, V>
    {
      LinkedHashMap(if k in values then keys else keys + [k], values[k := v])
    }

    /** The entries in iteration order. */
    function Entries(): seq<(K, V)>
      requires forall i :: 0 <= i < |keys| ==> keys[i] in values
    {
      seq(|keys|, i requires 0 <= i < |keys| => (keys[i], values[keys[i]]))
    }
  }

  /** new LinkedHashMap<>(): no entries. */
  function EmptyMap<K, V>(): (m: LinkedHashMap<K, V>)
    ensures m.Valid() && m.Entries() == []
  {
    LinkedHashMap([], map[])
  }

  /** put keeps each key listed once and the listing equal to the key set. */
  lemma PutPreservesValid<K, V>(m: LinkedHashMap<K, V>, k: K, v: V)
    requires m.Valid()
    ensures m.Put(k, v).Valid()
  {
    var n := m.Put(k, v);
    if k !in m.values {
      forall i, j | 0 <= i < j < |n.keys|
        ensures n.keys[i] != n.keys[j]
      {
        if j == |m.keys| {
          assert n.keys[i] == m.keys[i] && m.keys[i] in m.values;
        }
      }
    }
  }

  /** What put does to the iteration: a new key appends one entry at the
      end; an existing key changes only its own entry, in place. */
  lemma PutEntries<K, V>(m: LinkedHashMap<K, V>, k: K, v: V)
    requires m.Valid()
    ensures k !in m.values ==> m.Put(k, v).Entries() == m.Entries() + [(k, v)]
    ensures k in m.values ==>
      |m.Put(k, v).Entries()| == |m.Entries()| &&
      forall i :: 0 <= i < |m.keys| ==>
        m.Put(k, v).Entries()[i] == if m.keys[i] == k then (k, v) else m.Entries()[i]
  {
    PutPreservesValid(m, k, v);
    var e, f := m.Entries(), m.Put(k, v).Entries();
    if k !in m.values {
      assert |f| == |e| + 1;
      forall i | 0 <= i < |f|
        ensures f[i] == (e + [(k, v)])[i]
      {
        if i < |e| {
          assert m.keys[i] in m.values && m.keys[i] != k;
        }
      }
    }
  }

  /** The keys of HasXGBoostOptions that getOptions sets. */
  datatype OptionKey = Compact | NanAsMissing | NtreeLimit

  /** The option values: a Boolean, an Integer, or null. */
  datatype OptionValue = BoolValue(b: bool) | IntValue(i: int) | Null

  /** getOptions: parses the tree limit after '@' (new Integer throws
      NumberFormatException on a suffix that is not an int), then puts, in
      this order, compact = whether there is a limit, nan_as_missing = true
      and ntree_limit = the limit or null. */
  method GetOptions(dataset: string) returns (r: Result<seq<(OptionKey, OptionValue)>>)
    ensures r.Failure? <==> '@' in dataset && ParseInt(ParseDataset(dataset)[1]).None?
    ensures r.Failure? ==> r.error == NumberFormat
    ensures r.Success? ==> r.value == [
      (Compact, BoolValue('@' in dataset)),
      (NanAsMissing, BoolValue(true)),
      (NtreeLimit, if '@' in dataset then IntValue(ParseInt(ParseDataset(dataset)[1]).value) else Null)]
  {
    var parts := ParseDataset(dataset);
    var ntreeLimit: Option<int> := None;
    if |parts| > 1 {
      var parsed := ParseInt(parts[1]);
      if parsed.None? {
        return Failure(NumberFormat);
      }
      ntreeLimit := parsed;
    }
    var options: LinkedHashMap<OptionKey, OptionValue> := EmptyMap();
    options := options.Put(Compact, BoolValue(ntreeLimit != None));
    options := options.Put(NanAsMissing, BoolValue(true));
    options := options.Put(NtreeLimit, if ntreeLimit.Some? then IntValue(ntreeLimit.value) else Null);
    r := Success(options.Entries());
  }

  /** A dataset named with a tree limit n that fits in an int yields that
      limit; a dataset ending in '@' has an empty suffix, which is not a
      number, so getOptions throws. */
  lemma TreeLimitSuffix(name: string, n: nat)
    requires '@' !in name && n <= MAX_INT
    ensures ParseDataset(name + "@" + FormatNat(n)) == [name, FormatNat(n)]
    ensures ParseInt(ParseDataset(name + "@" + FormatNat(n))[1]) == Some(n)
    ensures ParseDataset(name + "@") == [name, ""]
    ensures ParseInt(ParseDataset(name + "@")[1]) == None
  {
    SplitJoin(name, FormatNat(n));
    ParseFormatRoundTrip(n);
    SplitJoin(name, "");
    assert name + "@" + "" == name + "@";
  }

  lemma DatasetExamples()
    ensures ParseDataset("Iris") == ["Iris"]
    ensures ParseDataset("Iris@5") == ["Iris", "5"] && ParseInt("5") == Some(5)
    ensures ParseDataset("Iris@") == ["Iris", ""] && ParseInt("") == None
    ensures ParseDataset("Iris@5@6") == ["Iris", "5@6"] && ParseInt("5@6") == None
  {
    SplitJoin("Iris", "5");
    assert "Iris" + "@" + "5" == "Iris@5";
    TreeLimitSuffix("Iris", 5);
    assert FormatNat(5) == "5";
    assert "Iris" + "@" == "Iris@";
    SplitJoin("Iris", "5@6");
    assert "Iris" + "@" + "5@6" == "Iris@5@6";
    ParseRejectsNonDigits("5@6", 1);
  }
}
