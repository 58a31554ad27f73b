/**
 The extraction step of the documentation generator: `parseTemplate` turns one
 decoded component file into a `ComponentData` record. It collects the
 declared inputs of `spec.inputs`, derives each input's `Required` flag from
 its default, orders the inputs required-first and then by name, and names
 the component after its file.

 Reading the file and decoding its YAML are foreign calls; their outcome is
 the `Document` parameter of `ParseTemplate`.
 */
module Components {
  import FilePath

  // ---------------------------------------------------------------------
  // Records
  // ---------------------------------------------------------------------

  /** One entry of `spec.inputs` as decoded from YAML; an absent key decodes
      to "". */
  datatype Inputs = Inputs(description: string, default: string)

  datatype Spec = Spec(description: string, inputs: map<string, Inputs>)

  datatype Config = Config(spec: Spec)

  /** One input as handed to the documentation template. */
  datatype InputData = InputData(name: string, description: string, required: bool, default: string)

  datatype ComponentData = ComponentData(name: string, description: string, inputs: seq<InputData>)

  /** Go's zero `ComponentData{}`, returned beside an error. */
  const EmptyComponent := ComponentData("", "", [])

  datatype Option<T> = None | Some(value: T)

  /** The two errors `parseTemplate` reports, each naming the file. */
  datatype TemplateError = ReadError(path: string) | ParseError(path: string)

  /** What reading the file and decoding its YAML produced: the file could not
      be read, its bytes are not valid YAML, or the decoded configuration. */
  datatype Document = Unreadable | Malformed | Parsed(config: Config)

  // ---------------------------------------------------------------------
  // Ordering
  // ---------------------------------------------------------------------

  /** Go's `<` on strings: lexicographic on characters, a proper prefix first. */
  predicate StringLess(a: string, b: string): (r: bool)
    ensures a < b ==> r
    ensures r ==> !(b < a)
    decreases |a|
  {
    if b == "" then false
    else if a == "" then true
    else if a[0] != b[0] then a[0] < b[0]
    else StringLess(a[1..], b[1..])
  }

  lemma {:induction false} StringLessIrreflexive(a: string)
    ensures !StringLess(a, a)
    decreases |a|
  {
    if a != "" {
      StringLessIrreflexive(a[1..]);
    }
  }

  lemma {:induction false} StringLessTransitive(a: string, b: string, c: string)
    requires StringLess(a, b) && StringLess(b, c)
    ensures StringLess(a, c)
    decreases |a|
  {
    if a != "" && a[0] == b[0] && b[0] == c[0] {
      StringLessTransitive(a[1..], b[1..], c[1..]);
    }
  }

  /** Any two distinct strings are ordered one way or the other. */
  lemma {:induction false} StringLessTotal(a: string, b: string)
    requires a != b
    ensures StringLess(a, b) || StringLess(b, a)
    decreases |a|
  {
    if a != "" && b != "" && a[0] == b[0] {
      assert a == [a[0]] + a[1..] && b == [b[0]] + b[1..];
      StringLessTotal(a[1..], b[1..]);
    }
  }

  /** The comparator handed to `sort.Slice`: required inputs first, then by name. */
  predicate InputLess(x: InputData, y: InputData): (r: bool)
    ensures x.required && !y.required ==> r
    ensures r ==> x.required || !y.required
  {
    if x.required != y.required then x.required else StringLess(x.name, y.name)
  }

  lemma InputLessIrreflexive(x: InputData)
    ensures !InputLess(x, x)
  {
    StringLessIrreflexive(x.name);
  }

  lemma InputLessTransitive(x: InputData, y: InputData, z: InputData)
    requires InputLess(x, y) && InputLess(y, z)
    ensures InputLess(x, z)
  {
    if x.required == y.required == z.required {
      StringLessTransitive(x.name, y.name, z.name);
    }
  }

  /** Inputs with different names are always ordered: on the entries of one
      map the comparator is a strict total order. */
  lemma InputLessTotal(x: InputData, y: InputData)
    requires x.name != y.name
    ensures InputLess(x, y) || InputLess(y, x)
  {
    StringLessTotal(x.name, y.name);
  }

  /** The contract `sort.Slice` keeps: no later element is less than an earlier one. */
  predicate SortedByLess(s: seq<InputData>) {
    forall p, q | 0 <= p < q < |s| :: !InputLess(s[q], s[p])
  }

  /** Strictly increasing under the comparator. */
  predicate StrictlyOrdered(s: seq<InputData>) {
    forall p, q | 0 <= p < q < |s| :: InputLess(s[p], s[q])
  }

  predicate DistinctNames(s: seq<InputData>) {
    forall p, q | 0 <= p < q < |s| :: s[p].name != s[q].name
  }

  /** A sequence ordered by the comparator has its required inputs before its
      optional ones and, within each group, names in strictly ascending order;
      and these two facts are all the ordering says. */
  lemma StrictlyOrderedLayout(s: seq<InputData>)
    ensures StrictlyOrdered(s) <==>
      (forall p, q | 0 <= p < q < |s| :: s[q].required ==> s[p].required) &&
      (forall p, q | 0 <= p < q < |s| && s[p].required == s[q].required :: StringLess(s[p].name, s[q].name))
  {
  }

  /** Sorted with distinct names means strictly ordered. */
  lemma {:induction false} SortedDistinctIsStrict(s: seq<InputData>)
    requires SortedByLess(s) && DistinctNames(s)
    ensures StrictlyOrdered(s)
  {
    forall p, q | 0 <= p < q < |s| ensures InputLess(s[p], s[q]) {
      InputLessTotal(s[p], s[q]);
    }
  }

  /** Two strictly ordered sequences with the same elements are equal: the
      ordering leaves no freedom. */
  lemma {:induction false} StrictlyOrderedUnique(s: seq<InputData>, t: seq<InputData>)
    requires StrictlyOrdered(s) && StrictlyOrdered(t)
    requires |s| == |t|
    requires forall x :: x in s <==> x in t
    ensures s == t
    decreases |s|
  {
    if s != [] {
      assert s[0] in t;
      assert t[0] in s;
      if s[0] != t[0] {
        var i :| 0 <= i < |s| && s[i] == t[0];
        var j :| 0 <= j < |t| && t[j] == s[0];
        InputLessTransitive(s[0], t[0], s[0]);
        InputLessIrreflexive(s[0]);
        assert false;
      }
      forall x ensures x in s[1..] <==> x in t[1..] {
        if x in s[1..] {
          var i :| 1 <= i < |s| && s[i] == x;
          InputLessIrreflexive(s[0]);
          assert x in t;
        }
        if x in t[1..] {
          var j :| 1 <= j < |t| && t[j] == x;
          InputLessIrreflexive(t[0]);
          assert x in s;
        }
      }
      StrictlyOrderedUnique(s[1..], t[1..]);
      assert s == [s[0]] + s[1..] && t == [t[0]] + t[1..];
    }
  }

  // ---------------------------------------------------------------------
  // Collation: one InputData per key of spec.inputs
  // ---------------------------------------------------------------------

  /** `d` is the record built for the map entry named `d.name`: its
      description and default are copied from the entry, and it is required
      exactly when the default is empty. */
  predicate FromEntry(m: map<string, Inputs>, d: InputData): (r: bool)
    ensures r <==> d.name in m && d == EntryRecord(d.name, m[d.name])
  {
    && d.name in m
    && d.description == m[d.name].description
    && d.default == m[d.name].default
    && d.required == (d.default == "")
  }

  /** The record the loop body of `parseTemplate` builds for the entry `k`. */
  function EntryRecord(k: string, input: Inputs): (d: InputData)
    ensures d.name == k && d.description == input.description && d.default == input.default
    ensures d.required <==> input.default == ""
  {
    InputData(k, input.description, input.default == "", input.default)
  }

  /** `s` holds exactly one record per key of `m`, built from that key's entry. */
  predicate Collation(m: map<string, Inputs>, s: seq<InputData>) {
    && |s| == |m|
    && (forall i | 0 <= i < |s| :: FromEntry(m, s[i]))
    && (forall k | k in m :: exists i | 0 <= i < |s| :: s[i].name == k)
  }

  function Names(s: seq<InputData>): set<string> {
    set i | 0 <= i < |s| :: s[i].name
  }

  lemma {:induction false} NamesBound(s: seq<InputData>)
    ensures |Names(s)| <= |s|
    ensures |Names(s)| == |s| ==> DistinctNames(s)
    decreases |s|
  {
    if s != [] {
      var t := s[..|s| - 1];
      var x := s[|s| - 1];
      NamesBound(t);
      assert Names(s) == Names(t) + {x.name} by {
        forall n ensures n in Names(s) <==> n in Names(t) + {x.name} {
          if n in Names(s) {
            var i :| 0 <= i < |s| && s[i].name == n;
            if i < |s| - 1 { assert t[i].name == n; }
          }
          if n in Names(t) {
            var i :| 0 <= i < |t| && t[i].name == n;
            assert s[i].name == n;
          }
        }
      }
      if |Names(s)| == |s| {
        assert x.name !in Names(t);
        forall p, q | 0 <= p < q < |s| ensures s[p].name != s[q].name {
          if q < |s| - 1 {
            assert s[p] == t[p] && s[q] == t[q];
          } else {
            assert t[p].name in Names(t);
          }
        }
      }
    }
  }

  /** No input is duplicated: a collation has one record per name. */
  lemma CollationDistinctNames(m: map<string, Inputs>, s: seq<InputData>)
    requires Collation(m, s)
    ensures DistinctNames(s)
  {
    assert Names(s) == m.Keys by {
      forall k | k in m ensures k in Names(s) {
        var i :| 0 <= i < |s| && s[i].name == k;
      }
    }
    NamesBound(s);
  }

  /** Reordering a collation leaves a collation. */
  lemma CollationPermuted(m: map<string, Inputs>, s: seq<InputData>, t: seq<InputData>)
    requires Collation(m, s)
    requires multiset(s) == multiset(t)
    ensures Collation(m, t)
  {
    assert |t| == |multiset(t)| == |multiset(s)| == |s|;
    forall i | 0 <= i < |t| ensures FromEntry(m, t[i]) {
      assert t[i] in multiset(s);
    }
    forall k | k in m ensures exists j | 0 <= j < |t| :: t[j].name == k {
      var i :| 0 <= i < |s| && s[i].name == k;
      assert s[i] in multiset(t);
    }
  }

  /** The ordered collation of a map is unique: however the map is iterated,
      the sorted inputs come out the same. */
  lemma CollationUnique(m: map<string, Inputs>, s: seq<InputData>, t: seq<InputData>)
    requires Collation(m, s) && StrictlyOrdered(s)
    requires Collation(m, t) && StrictlyOrdered(t)
    ensures s == t
  {
    forall x ensures x in s ==> x in t {
      if x in s {
        var j :| 0 <= j < |t| && t[j].name == x.name;
      }
    }
    forall x ensures x in t ==> x in s {
      if x in t {
        var i :| 0 <= i < |s| && s[i].name == x.name;
      }
    }
    StrictlyOrderedUnique(s, t);
  }

  /** The `for name, input := range config.Spec.Inputs` loop: one record per
      entry, appended in the map's iteration order, which Go leaves
      unspecified and which the choice of `name` stands for. */
  method CollectInputs(m: map<string, Inputs>) returns (inputs: seq<InputData>)
    ensures Collation(m, inputs)
  {
    inputs := [];
    var pending := m.Keys;
    while pending != {}
      invariant pending <= m.Keys
      invariant |inputs| + |pending| == |m|
      invariant forall i | 0 <= i < |inputs| :: FromEntry(m, inputs[i])
      invariant forall k | k in m && k !in pending :: exists i | 0 <= i < |inputs| :: inputs[i].name == k
      decreases pending
    {
      var name :| name in pending;
      var input := m[name];
      ghost var before := inputs;
      inputs := inputs + [EntryRecord(name, input)];
      assert forall i | 0 <= i < |before| :: inputs[i] == before[i];
      assert inputs[|before|].name == name;
      pending := pending - {name};
    }
  }

  // ---------------------------------------------------------------------
  // Sorting in place (sort.Slice with the comparator above)
  // ---------------------------------------------------------------------

  method Swap(a: array<InputData>, i: int, j: int)
    requires 0 <= i < a.Length && 0 <= j < a.Length
    modifies a
    ensures a[i] == old(a[j]) && a[j] == old(a[i])
    ensures forall k | 0 <= k < a.Length && k != i && k != j :: a[k] == old(a[k])
    ensures multiset(a[..]) == old(multiset(a[..]))
  {
    a[i], a[j] := a[j], a[i];
  }

  /** The position of a least element of `a[lo..]` under the comparator. */
  method IndexOfLeast(a: array<InputData>, lo: int) returns (k: int)
    requires 0 <= lo < a.Length
    ensures lo <= k < a.Length
    ensures forall j | lo <= j < a.Length :: !InputLess(a[j], a[k])
  {
    k := lo;
    var i := lo + 1;
    InputLessIrreflexive(a[lo]);
    while i < a.Length
      invariant lo <= k < i <= a.Length
      invariant forall j | lo <= j < i :: !InputLess(a[j], a[k])
    {
      if InputLess(a[i], a[k]) {
        forall j | lo <= j < i ensures !InputLess(a[j], a[i]) {
          if InputLess(a[j], a[i]) {
            InputLessTransitive(a[j], a[i], a[k]);
          }
        }
        InputLessIrreflexive(a[i]);
        k := i;
      }
      i := i + 1;
    }
  }

  /** Sorts `a` in place so that no later element is less than an earlier one
      (the guarantee of `sort.Slice`), keeping the same elements. */
  method SortInputs(a: array<InputData>)
    modifies a
    ensures SortedByLess(a[..])
    ensures multiset(a[..]) == old(multiset(a[..]))
  {
    var i := 0;
    while i < a.Length
      invariant 0 <= i <= a.Length
      invariant forall p, q | 0 <= p < q < i :: !InputLess(a[q], a[p])
      invariant forall p, q | 0 <= p < i <= q < a.Length :: !InputLess(a[q], a[p])
      invariant multiset(a[..]) == old(multiset(a[..]))
    {
      var k := IndexOfLeast(a, i);
      Swap(a, i, k);
      i := i + 1;
    }
  }

  // ---------------------------------------------------------------------
  // parseTemplate
  // ---------------------------------------------------------------------

  /** The component name: the file's base name without its final extension. */
  function ComponentName(path: string): (r: string)
    ensures r + FilePath.Ext(FilePath.Base(path)) == FilePath.Base(path)
  {
    var base := FilePath.Base(path);
    var ext := FilePath.Ext(base);
    FilePath.SplitBeforeSuffix(base, ext);
    base[..|base| - |ext|]
  }

  /** Two splits of one string with the same suffix have the same prefix. */
  lemma SameSuffixSamePrefix(r: string, stem: string, suffix: string, whole: string)
    requires r + suffix == whole && stem + suffix == whole
    ensures r == stem
  {
    assert r == whole[..|r|] && stem == whole[..|stem|];
  }

  /** The name of the component in file `dir + (stem + "." + ext)` is `stem`:
      the directory and the final extension are dropped, and earlier dots of
      the file name stay. */
  lemma ComponentNameOfFile(dir: string, stem: string, ext: string)
    requires FilePath.IsDirPrefix(dir)
    requires FilePath.Separator !in stem
    requires FilePath.Separator !in ext && '.' !in ext
    ensures ComponentName(dir + (stem + "." + ext)) == stem
  {
    var name := stem + "." + ext;
    FilePath.BaseAndExtOfFile(dir, stem, ext, name);
    ComponentNameOfSplitBase(dir + name, stem, "." + ext);
  }

  /** When the base name is `stem` followed by its extension, the component
      is named `stem`. */
  lemma ComponentNameOfSplitBase(path: string, stem: string, ext: string)
    requires FilePath.Base(path) == stem + ext
    requires FilePath.Ext(FilePath.Base(path)) == ext
    ensures ComponentName(path) == stem
  {
    SameSuffixSamePrefix(ComponentName(path), stem, ext, FilePath.Base(path));
  }

  /** A component name holds a separator only when the whole path is a run
      of separators. */
  lemma ComponentNameHasNoSeparator(path: string)
    requires !(path != "" && FilePath.AllSeparators(path))
    ensures FilePath.Separator !in ComponentName(path)
  {
  }

  /** `parseTemplate`: a read or decode failure gives that error and the empty
      record; otherwise the record carries the file-derived name, the spec's
      description verbatim, and the inputs collated and ordered. */
  method ParseTemplate(path: string, doc: Document) returns (data: ComponentData, err: Option<TemplateError>)
    ensures doc.Unreadable? ==> data == EmptyComponent && err == Some(ReadError(path))
    ensures doc.Malformed? ==> data == EmptyComponent && err == Some(ParseError(path))
    ensures doc.Parsed? ==> err == None
    ensures doc.Parsed? ==> data.name == ComponentName(path)
    ensures doc.Parsed? ==> data.description == doc.config.spec.description
    ensures doc.Parsed? ==> Collation(doc.config.spec.inputs, data.inputs)
    ensures doc.Parsed? ==> StrictlyOrdered(data.inputs)
  {
    if doc.Unreadable? {
      return EmptyComponent, Some(ReadError(path));
    }
    if doc.Malformed? {
      return EmptyComponent, Some(ParseError(path));
    }
    var config := doc.config;
    var collected := CollectInputs(config.spec.inputs);
    var inputs := new InputData[|collected|](i requires 0 <= i < |collected| => collected[i]);
    assert inputs[..] == collected;
    SortInputs(inputs);
    CollationPermuted(config.spec.inputs, collected, inputs[..]);
    CollationDistinctNames(config.spec.inputs, inputs[..]);
    SortedDistinctIsStrict(inputs[..]);
    data := ComponentData(ComponentName(path), config.spec.description, inputs[..]);
    err := None;
  }

  /** Go randomises map iteration, yet two runs of `parseTemplate` on the same
      file produce the same record: the sort alone fixes the order. */
  method ParseTemplateDeterministic(path: string, doc: Document) returns (first: ComponentData, second: ComponentData)
    ensures first == second
  {
    var firstErr, secondErr;
    first, firstErr := ParseTemplate(path, doc);
    second, secondErr := ParseTemplate(path, doc);
    if doc.Parsed? {
      CollationUnique(doc.config.spec.inputs, first.inputs, second.inputs);
    }
  }
}
