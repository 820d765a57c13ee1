/**
 What dot-paths mean: they are the encodings of the payload's nodes, splitting them at the dots
 leads back exactly when the keys on the way are free of dots and the first one is not empty, and
 without models leaf paths are always paths.
 */
module JsonPathLaws {
  import opened Wrappers
  import opened JsonPaths

  function Encode(prefix: string, keys: seq<string>): string
    decreases |keys|
  {
    if keys == [] then prefix else Encode(Extend(prefix, keys[0]), keys[1..])
  }

  ghost predicate IsScalarAt(v: Json, keys: seq<string>) {
    NodeAt(v, keys, true).Some? && NodeAt(v, keys, true).value.Scalar?
  }

  lemma {:induction false} NodeHere(v: Json, descend: bool)
    ensures NodeAt(v, [], descend).Some?
    decreases v
  {
    if v.Model? && descend { NodeHere(v.dumped, descend); }
  }

  lemma NodeBelow(v: Json, i: nat, keys: seq<string>, descend: bool)
    requires UniqueKeys(v) && i < Count(v)
    ensures NodeAt(v, [KeyAt(v, i)] + keys, descend) == NodeAt(ChildAt(v, i), keys, descend)
  {
    assert ([KeyAt(v, i)] + keys)[1..] == keys;
  }

  lemma EncodeBelow(prefix: string, key: string, keys: seq<string>)
    ensures Encode(prefix, [key] + keys) == Encode(Extend(prefix, key), keys)
  {
    assert ([key] + keys)[1..] == keys;
  }

  // ---------------------------------------------------------------- paths are encodings of nodes

  lemma {:induction false} ChildOfPath(v: Json, n: nat, prefix: string, descend: bool, p: string) returns (i: nat)
    requires n <= Count(v) && p in ChildPaths(v, n, prefix, descend)
    ensures i < n && p in AllPaths(ChildAt(v, i), Extend(prefix, KeyAt(v, i)), descend)
  {
    i := n - 1;
    if p in ChildPaths(v, n - 1, prefix, descend) { i := ChildOfPath(v, n - 1, prefix, descend, p); }
  }

  lemma {:induction false} ChildPathIncluded(v: Json, n: nat, prefix: string, descend: bool, i: nat)
    requires i < n <= Count(v)
    ensures AllPaths(ChildAt(v, i), Extend(prefix, KeyAt(v, i)), descend) <= ChildPaths(v, n, prefix, descend)
  {
    if i < n - 1 { ChildPathIncluded(v, n - 1, prefix, descend, i); }
  }

  lemma {:induction false} PathHasNode(v: Json, prefix: string, descend: bool, p: string) returns (keys: seq<string>)
    requires UniqueKeys(v) && p in AllPaths(v, prefix, descend)
    ensures p != [] && Encode(prefix, keys) == p && NodeAt(v, keys, descend).Some?
    decreases v
  {
    NodeHere(v, descend);
    if p == prefix && prefix != [] {
      keys := [];
    } else if v.Model? {
      keys := PathHasNode(v.dumped, prefix, descend, p);
    } else {
      var i := ChildOfPath(v, Count(v), prefix, descend, p);
      var below := PathHasNode(ChildAt(v, i), Extend(prefix, KeyAt(v, i)), descend, p);
      NodeBelow(v, i, below, descend);
      EncodeBelow(prefix, KeyAt(v, i), below);
      keys := [KeyAt(v, i)] + below;
    }
  }

  lemma {:induction false} NodeHasPath(v: Json, prefix: string, descend: bool, keys: seq<string>)
    requires NodeAt(v, keys, descend).Some? && Encode(prefix, keys) != []
    ensures Encode(prefix, keys) in AllPaths(v, prefix, descend)
    decreases v
  {
    if v.Model? {
      if descend { NodeHasPath(v.dumped, prefix, descend, keys); }
    } else if keys != [] {
      var i: nat :| i < Count(v) && KeyAt(v, i) == keys[0]
                 && NodeAt(v, keys, descend) == NodeAt(ChildAt(v, i), keys[1..], descend);
      NodeHasPath(ChildAt(v, i), Extend(prefix, KeyAt(v, i)), descend, keys[1..]);
      ChildPathIncluded(v, Count(v), prefix, descend, i);
    }
  }

  // ---------------------------------------------------------------- leaf paths are encodings of scalars

  lemma {:induction false} ChildOfLeaf(v: Json, n: nat, prefix: string, p: string) returns (i: nat)
    requires n <= Count(v) && p in ChildLeafPaths(v, n, prefix)
    ensures i < n && p in LeafPaths(ChildAt(v, i), Extend(prefix, KeyAt(v, i)))
  {
    i := n - 1;
    if p in ChildLeafPaths(v, n - 1, prefix) { i := ChildOfLeaf(v, n - 1, prefix, p); }
  }

  lemma {:induction false} ChildLeafIncluded(v: Json, n: nat, prefix: string, i: nat)
    requires i < n <= Count(v)
    ensures LeafPaths(ChildAt(v, i), Extend(prefix, KeyAt(v, i))) <= ChildLeafPaths(v, n, prefix)
  {
    if i < n - 1 { ChildLeafIncluded(v, n - 1, prefix, i); }
  }

  lemma {:induction false} LeafHasScalar(v: Json, prefix: string, p: string) returns (keys: seq<string>)
    requires UniqueKeys(v) && p in LeafPaths(v, prefix)
    ensures p != [] && Encode(prefix, keys) == p && IsScalarAt(v, keys)
    decreases v
  {
    if v.Scalar? {
      keys := [];
    } else if v.Model? {
      keys := LeafHasScalar(v.dumped, prefix, p);
    } else {
      var i := ChildOfLeaf(v, Count(v), prefix, p);
      var below := LeafHasScalar(ChildAt(v, i), Extend(prefix, KeyAt(v, i)), p);
      NodeBelow(v, i, below, true);
      EncodeBelow(prefix, KeyAt(v, i), below);
      keys := [KeyAt(v, i)] + below;
    }
  }

  lemma {:induction false} ScalarHasLeaf(v: Json, prefix: string, keys: seq<string>)
    requires IsScalarAt(v, keys) && Encode(prefix, keys) != []
    ensures Encode(prefix, keys) in LeafPaths(v, prefix)
    decreases v
  {
    if v.Model? {
      ScalarHasLeaf(v.dumped, prefix, keys);
    } else if keys != [] {
      var i: nat :| i < Count(v) && KeyAt(v, i) == keys[0]
                 && NodeAt(v, keys, true) == NodeAt(ChildAt(v, i), keys[1..], true);
      ScalarHasLeaf(ChildAt(v, i), Extend(prefix, KeyAt(v, i)), keys[1..]);
      ChildLeafIncluded(v, Count(v), prefix, i);
    }
  }

  // ---------------------------------------------------------------- decoding

  /** `path.split(".")`. */
  function Split(p: string): (r: seq<string>)
    ensures r != []
  {
    if p == [] then [""]
    else if p[0] == '.' then [""] + Split(p[1..])
    else
      var rest := Split(p[1..]);
      [[p[0]] + rest[0]] + rest[1..]
  }

  predicate DotFree(keys: seq<string>) {
    forall i | 0 <= i < |keys| :: '.' !in keys[i]
  }

  lemma {:induction false} SplitFirst(key: string, rest: string)
    requires '.' !in key
    ensures Split(key) == [key]
    ensures Split(key + "." + rest) == [key] + Split(rest)
  {
    if key == [] {
      assert (key + "." + rest)[1..] == rest;
    } else {
      SplitFirst(key[1..], rest);
      assert (key + "." + rest)[1..] == key[1..] + "." + rest;
      assert key == [key[0]] + key[1..];
    }
  }

  /** `.key` for each key. */
  function Suffix(keys: seq<string>): string {
    if keys == [] then "" else "." + keys[0] + Suffix(keys[1..])
  }

  lemma {:induction false} EncodeIsSuffix(prefix: string, keys: seq<string>)
    requires prefix != []
    ensures Encode(prefix, keys) == prefix + Suffix(keys)
    decreases |keys|
  {
    if keys != [] {
      EncodeIsSuffix(Extend(prefix, keys[0]), keys[1..]);
    }
  }

  lemma {:induction false} SplitSuffix(key: string, keys: seq<string>)
    requires '.' !in key && DotFree(keys)
    ensures Split(key + Suffix(keys)) == [key] + keys
    decreases |keys|
  {
    if keys == [] {
      SplitFirst(key, "");
      assert key + Suffix(keys) == key;
    } else {
      SplitSuffix(keys[0], keys[1..]);
      SplitFirst(key, keys[0] + Suffix(keys[1..]));
      assert key + Suffix(keys) == key + "." + (keys[0] + Suffix(keys[1..]));
      assert keys == [keys[0]] + keys[1..];
    }
  }

  /** The keys have a path, and splitting it gives them back. */
  predicate Decodes(keys: seq<string>) {
    Encode("", keys) != [] && Split(Encode("", keys)) == keys
  }

  lemma DecodeEncoded(keys: seq<string>)
    requires keys != [] && keys[0] != [] && DotFree(keys)
    ensures Decodes(keys)
  {
    EncodeIsSuffix(keys[0], keys[1..]);
    SplitSuffix(keys[0], keys[1..]);
    assert keys == [keys[0]] + keys[1..];
  }

  lemma {:induction false} SplitIsDotFree(p: string)
    ensures DotFree(Split(p))
  {
    if p != [] { SplitIsDotFree(p[1..]); }
  }

  /** Empty leading keys leave no trace. */
  lemma {:induction false} EmptyStartIsLost(keys: seq<string>)
    requires keys != [] && keys[0] == [] && DotFree(keys)
    ensures Encode("", keys) == [] || |Split(Encode("", keys))| < |keys|
    decreases |keys|
  {
    var rest := keys[1..];
    assert Encode("", keys) == Encode("", rest);
    if rest != [] {
      if rest[0] == [] { EmptyStartIsLost(rest); } else { DecodeEncoded(rest); }
    }
  }

  /** Decoding undoes encoding exactly for dot-free keys of which the first is not empty. */
  lemma DecodesExactly(keys: seq<string>)
    requires keys != []
    ensures Decodes(keys) <==> keys[0] != [] && DotFree(keys)
  {
    if !DotFree(keys) {
      SplitIsDotFree(Encode("", keys));
    } else if keys[0] == [] {
      EmptyStartIsLost(keys);
    } else {
      DecodeEncoded(keys);
    }
  }

  lemma EncodeDecoded(p: string)
    requires Split(p)[0] != []
    ensures Encode("", Split(p)) == p
  {
    var keys := Split(p);
    JoinSplit(p);
    EncodeIsSuffix(keys[0], keys[1..]);
  }

  lemma {:induction false} JoinSplit(p: string)
    ensures Split(p)[0] + Suffix(Split(p)[1..]) == p
  {
    if p != [] {
      JoinSplit(p[1..]);
      var rest := Split(p[1..]);
      assert p == [p[0]] + p[1..];
      if p[0] == '.' { assert ([""] + rest)[1..] == rest; }
    }
  }

  // ---------------------------------------------------------------- payloads whose paths decode

  /** The nodes a path set names: all of them, inside models or not, or the scalars. */
  datatype Nodes = Every(descend: bool) | Scalars

  predicate Descends(n: Nodes) { n.Scalars? || n.descend }

  ghost predicate Names(v: Json, keys: seq<string>, n: Nodes) {
    if n.Scalars? then IsScalarAt(v, keys) else NodeAt(v, keys, n.descend).Some?
  }

  predicate Scalarless(v: Json)
    decreases v
  {
    match v
    case Scalar(_) => false
    case Model(dumped) => Scalarless(dumped)
    case _ => forall i | 0 <= i < Count(v) :: Scalarless(ChildAt(v, i))
  }

  predicate HasNamed(v: Json, n: Nodes) {
    n.Every? || !Scalarless(v)
  }

  /** No key on the way to a named node contains a dot. */
  predicate WayIsDotFree(v: Json, n: Nodes)
    decreases v
  {
    match v
    case Model(dumped) => !Descends(n) || WayIsDotFree(dumped, n)
    case _ =>
      forall i | 0 <= i < Count(v) && HasNamed(ChildAt(v, i), n) ::
        '.' !in KeyAt(v, i) && WayIsDotFree(ChildAt(v, i), n)
  }

  /** No key at the root that leads to a named node is empty. */
  predicate RootIsNamed(v: Json, n: Nodes)
    decreases v
  {
    match v
    case Model(dumped) => !Descends(n) || RootIsNamed(dumped, n)
    case _ => forall i | 0 <= i < Count(v) && HasNamed(ChildAt(v, i), n) :: KeyAt(v, i) != []
  }

  predicate Splittable(v: Json, n: Nodes) {
    WayIsDotFree(v, n) && RootIsNamed(v, n)
  }

  lemma {:induction false} FindScalar(v: Json) returns (keys: seq<string>)
    requires UniqueKeys(v) && !Scalarless(v)
    ensures IsScalarAt(v, keys)
    decreases v
  {
    if v.Scalar? {
      keys := [];
    } else if v.Model? {
      keys := FindScalar(v.dumped);
    } else {
      var i :| 0 <= i < Count(v) && !Scalarless(ChildAt(v, i));
      var below := FindScalar(ChildAt(v, i));
      NodeBelow(v, i, below, true);
      keys := [KeyAt(v, i)] + below;
    }
  }

  lemma {:induction false} ScalarlessHasNone(v: Json, keys: seq<string>)
    requires Scalarless(v)
    ensures !IsScalarAt(v, keys)
    decreases v
  {
    if v.Model? {
      ScalarlessHasNone(v.dumped, keys);
    } else if keys != [] && IsScalarAt(v, keys) {
      var i: nat :| i < Count(v) && KeyAt(v, i) == keys[0]
                 && NodeAt(v, keys, true) == NodeAt(ChildAt(v, i), keys[1..], true);
      ScalarlessHasNone(ChildAt(v, i), keys[1..]);
    }
  }

  lemma FindNamed(v: Json, n: Nodes) returns (keys: seq<string>)
    requires UniqueKeys(v) && HasNamed(v, n)
    ensures Names(v, keys, n)
  {
    if n.Every? {
      NodeHere(v, n.descend);
      keys := [];
    } else {
      keys := FindScalar(v);
    }
  }

  /** The child through which keys lead to a named node. */
  lemma NamedChild(v: Json, keys: seq<string>, n: Nodes) returns (i: nat)
    requires Names(v, keys, n) && keys != [] && !v.Model?
    ensures i < Count(v) && KeyAt(v, i) == keys[0]
    ensures Names(ChildAt(v, i), keys[1..], n) && HasNamed(ChildAt(v, i), n)
  {
    if n.Scalars? {
      i :| i < Count(v) && KeyAt(v, i) == keys[0] && NodeAt(v, keys, true) == NodeAt(ChildAt(v, i), keys[1..], true);
      if Scalarless(ChildAt(v, i)) { ScalarlessHasNone(ChildAt(v, i), keys[1..]); }
    } else {
      i :| i < Count(v) && KeyAt(v, i) == keys[0]
           && NodeAt(v, keys, n.descend) == NodeAt(ChildAt(v, i), keys[1..], n.descend);
    }
  }

  lemma {:induction false} NamedKeysAreDotFree(v: Json, keys: seq<string>, n: Nodes)
    requires WayIsDotFree(v, n) && Names(v, keys, n)
    ensures DotFree(keys)
    decreases v
  {
    if v.Model? {
      if Descends(n) { NamedKeysAreDotFree(v.dumped, keys, n); }
    } else if keys != [] {
      var i := NamedChild(v, keys, n);
      NamedKeysAreDotFree(ChildAt(v, i), keys[1..], n);
      assert keys == [keys[0]] + keys[1..];
    }
  }

  lemma {:induction false} NamedStart(v: Json, keys: seq<string>, n: Nodes)
    requires RootIsNamed(v, n) && Names(v, keys, n) && keys != []
    ensures keys[0] != []
    decreases v
  {
    if v.Model? {
      NamedStart(v.dumped, keys, n);
    } else {
      var i := NamedChild(v, keys, n);
    }
  }

  lemma NamedDecodes(v: Json, keys: seq<string>, n: Nodes)
    requires Splittable(v, n) && Names(v, keys, n) && keys != []
    ensures keys[0] != [] && Decodes(keys)
  {
    NamedKeysAreDotFree(v, keys, n);
    NamedStart(v, keys, n);
    DecodeEncoded(keys);
  }

  lemma {:induction false} FindDotted(v: Json, n: Nodes) returns (keys: seq<string>)
    requires UniqueKeys(v) && !WayIsDotFree(v, n)
    ensures Names(v, keys, n) && keys != [] && !DotFree(keys)
    decreases v
  {
    if v.Model? {
      keys := FindDotted(v.dumped, n);
    } else {
      var i :| 0 <= i < Count(v) && HasNamed(ChildAt(v, i), n)
               && ('.' in KeyAt(v, i) || !WayIsDotFree(ChildAt(v, i), n));
      var below;
      if '.' in KeyAt(v, i) { below := FindNamed(ChildAt(v, i), n); } else { below := FindDotted(ChildAt(v, i), n); }
      NodeBelow(v, i, below, Descends(n));
      DotFreeBelow(KeyAt(v, i), below);
      hide DotFree, WayIsDotFree, HasNamed;
      keys := [KeyAt(v, i)] + below;
    }
  }

  lemma DotFreeBelow(key: string, below: seq<string>)
    ensures DotFree([key] + below) <==> '.' !in key && DotFree(below)
  {
    var keys := [key] + below;
    assert keys[0] == key && forall j | 0 <= j < |below| :: keys[j + 1] == below[j];
  }

  lemma {:induction false} FindNameless(v: Json, n: Nodes) returns (keys: seq<string>)
    requires UniqueKeys(v) && !RootIsNamed(v, n)
    ensures Names(v, keys, n) && keys != [] && keys[0] == []
    decreases v
  {
    if v.Model? {
      keys := FindNameless(v.dumped, n);
    } else {
      var i :| 0 <= i < Count(v) && HasNamed(ChildAt(v, i), n) && KeyAt(v, i) == [];
      var below := FindNamed(ChildAt(v, i), n);
      NodeBelow(v, i, below, Descends(n));
      keys := [KeyAt(v, i)] + below;
    }
  }

  /**
   Every named node below the root has a path that splits back into its keys, exactly when no key
   on the way to one contains a dot and no root key leading to one is empty.
   */
  lemma SplittableExactly(v: Json, n: Nodes)
    requires UniqueKeys(v)
    ensures (forall keys | Names(v, keys, n) && keys != [] :: Decodes(keys)) <==> Splittable(v, n)
  {
    if Splittable(v, n) {
      forall keys | Names(v, keys, n) && keys != [] ensures Decodes(keys) {
        NamedDecodes(v, keys, n);
      }
    } else {
      var keys;
      if !WayIsDotFree(v, n) { keys := FindDotted(v, n); } else { keys := FindNameless(v, n); }
      DecodesExactly(keys);
    }
  }

  /** Then a string is a path exactly when splitting it at the dots leads to a node. */
  lemma PathsDecode(v: Json, descend: bool, p: string)
    requires UniqueKeys(v) && Splittable(v, Every(descend))
    ensures p in AllPaths(v, "", descend) <==> NodeAt(v, Split(p), descend).Some?
  {
    if p in AllPaths(v, "", descend) {
      var keys := PathHasNode(v, "", descend, p);
      NamedDecodes(v, keys, Every(descend));
    }
    if NodeAt(v, Split(p), descend).Some? {
      NamedDecodes(v, Split(p), Every(descend));
      EncodeDecoded(p);
      NodeHasPath(v, "", descend, Split(p));
    }
  }

  /** Likewise a string is a leaf path exactly when it decodes to a scalar, and to no other. */
  lemma LeafPathsDecode(v: Json, p: string)
    requires UniqueKeys(v) && Splittable(v, Scalars)
    ensures p in LeafPaths(v, "") <==> IsScalarAt(v, Split(p))
    ensures forall keys :: IsScalarAt(v, keys) && Encode("", keys) == p && p != [] ==> keys == Split(p)
  {
    forall keys | IsScalarAt(v, keys) && Encode("", keys) == p && p != [] ensures keys == Split(p) {
      NamedDecodes(v, keys, Scalars);
    }
    if p in LeafPaths(v, "") {
      var keys := LeafHasScalar(v, "", p);
    }
    if IsScalarAt(v, Split(p)) {
      NamedDecodes(v, Split(p), Scalars);
      EncodeDecoded(p);
      ScalarHasLeaf(v, "", Split(p));
    }
  }

  function OneField(key: string, value: Json): Json { Object([Field(key, value)]) }

  lemma OneFieldNode(key: string, text: string)
    ensures UniqueKeys(OneField(key, Scalar(text))) && NodeAt(OneField(key, Scalar(text)), [key], true) == Some(Scalar(text))
  {
    var v := OneField(key, Scalar(text));
    assert KeyAt(v, 0) == key;
    NodeBelow(v, 0, [], true);
    assert [key] + [] == [key];
  }

  /** A dotted key can make one path name two different scalars. */
  lemma DottedKeyIsAmbiguous()
    ensures var v := Object([Field("a.b", Scalar("1")), Field("a", OneField("b", Scalar("2")))]);
            && UniqueKeys(v) && NodeAt(v, ["a.b"], true) == Some(Scalar("1"))
            && NodeAt(v, ["a"] + ["b"], true) == Some(Scalar("2"))
            && Encode("", ["a.b"]) == Encode("", ["a"] + ["b"])
  {
    var inner := OneField("b", Scalar("2"));
    var v := Object([Field("a.b", Scalar("1")), Field("a", inner)]);
    OneFieldNode("b", "2");
    hide OneField, NodeAt;
    assert KeyAt(v, 0) == "a.b" && ChildAt(v, 0) == Scalar("1") && KeyAt(v, 1) == "a" && ChildAt(v, 1) == inner;
    assert UniqueKeys(v);
    hide UniqueKeys;
    NodeBelow(v, 1, ["b"], true);
    NodeBelow(v, 0, [], true);
    ScalarIsItself("1");
    assert ["a.b"] + [] == ["a.b"];
    EncodeBelow("", "a", ["b"]);
    EncodeBelow("a", "b", []);
    EncodeBelow("", "a.b", []);
    assert ["b"] + [] == ["b"] && Extend("a", "b") == "a.b";
  }

  lemma ScalarIsItself(text: string)
    ensures NodeAt(Scalar(text), [], true) == Some(Scalar(text))
  {
  }

  /** A scalar under an empty root key can be without a leaf path. */
  lemma EmptyKeyIsUnnameable()
    ensures var w := Object([Field("", Scalar("1"))]);
            UniqueKeys(w) && IsScalarAt(w, [""]) && LeafPaths(w, "") == {}
  {
    var w := Object([Field("", Scalar("1"))]);
    assert KeyAt(w, 0) == "" && ChildAt(w, 0) == Scalar("1");
    NodeBelow(w, 0, [], true);
    assert [""] + [] == [""];
    assert ChildLeafPaths(w, 1, "") == ChildLeafPaths(w, 0, "") + LeafPaths(Scalar("1"), "");
  }

  // ---------------------------------------------------------------- models that are not looked into

  /** No scalar below the root. */
  predicate Leafless(v: Json)
    decreases v
  {
    match v
    case Model(dumped) => Leafless(dumped)
    case _ => forall i | 0 <= i < Count(v) :: Scalarless(ChildAt(v, i))
  }

  /** Every model in the payload dumps to something without scalars below its root. */
  predicate ModelsAreBare(v: Json)
    decreases v
  {
    match v
    case Model(dumped) => Leafless(dumped)
    case _ => forall i | 0 <= i < Count(v) :: ModelsAreBare(ChildAt(v, i))
  }

  lemma {:induction false} FindLeaf(v: Json) returns (keys: seq<string>)
    requires UniqueKeys(v) && !Leafless(v)
    ensures keys != [] && IsScalarAt(v, keys)
    decreases v
  {
    if v.Model? {
      keys := FindLeaf(v.dumped);
    } else {
      var i :| 0 <= i < Count(v) && !Scalarless(ChildAt(v, i));
      var below := FindScalar(ChildAt(v, i));
      NodeBelow(v, i, below, true);
      keys := [KeyAt(v, i)] + below;
    }
  }

  lemma {:induction false} HiddenLeaf(v: Json) returns (keys: seq<string>)
    requires UniqueKeys(v) && !ModelsAreBare(v)
    ensures keys != [] && IsScalarAt(v, keys) && NodeAt(v, keys, false).None?
    decreases v
  {
    if v.Model? {
      keys := FindLeaf(v.dumped);
    } else {
      var i :| 0 <= i < Count(v) && !ModelsAreBare(ChildAt(v, i));
      var below := HiddenLeaf(ChildAt(v, i));
      NodeBelow(v, i, below, true);
      NodeBelow(v, i, below, false);
      keys := [KeyAt(v, i)] + below;
    }
  }

  lemma {:induction false} LeaflessOnlyAtRoot(v: Json, keys: seq<string>)
    requires Leafless(v) && IsScalarAt(v, keys)
    ensures keys == []
    decreases v
  {
    if v.Model? {
      LeaflessOnlyAtRoot(v.dumped, keys);
    } else if keys != [] {
      var i: nat :| i < Count(v) && KeyAt(v, i) == keys[0]
                 && NodeAt(v, keys, true) == NodeAt(ChildAt(v, i), keys[1..], true);
      ScalarlessHasNone(ChildAt(v, i), keys[1..]);
    }
  }

  lemma {:induction false} BareReaches(v: Json, keys: seq<string>)
    requires UniqueKeys(v) && ModelsAreBare(v) && IsScalarAt(v, keys)
    ensures NodeAt(v, keys, false).Some?
    decreases v
  {
    if v.Model? {
      LeaflessOnlyAtRoot(v.dumped, keys);
    } else if keys != [] {
      var i: nat :| i < Count(v) && KeyAt(v, i) == keys[0]
                 && NodeAt(v, keys, true) == NodeAt(ChildAt(v, i), keys[1..], true);
      BareReaches(ChildAt(v, i), keys[1..]);
      NodeBelow(v, i, keys[1..], false);
      assert [KeyAt(v, i)] + keys[1..] == keys;
    }
  }

  /** Bare models hide nothing, whatever the keys. */
  lemma BareModelsHideNothing(v: Json)
    requires UniqueKeys(v) && ModelsAreBare(v)
    ensures LeafPaths(v, "") <= AllPaths(v, "", false)
  {
    forall p | p in LeafPaths(v, "") ensures p in AllPaths(v, "", false) {
      var keys := LeafHasScalar(v, "", p);
      BareReaches(v, keys);
      NodeHasPath(v, "", false, keys);
    }
  }

  /**
   In core.py, which does not look into models for its paths, leaf paths are paths exactly when
   models are bare, as long as both kinds of path decode.
   */
  lemma CoreLeavesAmongPathsExactly(v: Json)
    requires UniqueKeys(v) && Splittable(v, Scalars) && Splittable(v, Every(false))
    ensures LeafPaths(v, "") <= AllPaths(v, "", false) <==> ModelsAreBare(v)
  {
    if ModelsAreBare(v) {
      BareModelsHideNothing(v);
    } else {
      var keys := HiddenLeaf(v);
      NamedDecodes(v, keys, Scalars);
      ScalarHasLeaf(v, "", keys);
      PathsDecode(v, false, Encode("", keys));
    }
  }

  /** A model field is a leaf that core.py's paths miss. */
  lemma CoreMissesModelFields()
    ensures var v := Object([Field("context", Model(Object([Field("id", Scalar("7"))])))]);
            && "context.id" in LeafPaths(v, "") && "context.id" !in AllPaths(v, "", false)
            && "context.id" in AllPaths(v, "", true)
  {
    var dumped := Object([Field("id", Scalar("7"))]);
    var v := Object([Field("context", Model(dumped))]);
    assert Extend("context", "id") == "context.id";
    assert ChildLeafPaths(dumped, 1, "context")
        == ChildLeafPaths(dumped, 0, "context") + LeafPaths(Scalar("7"), "context.id");
    assert ChildLeafPaths(v, 1, "") == ChildLeafPaths(v, 0, "") + LeafPaths(Model(dumped), "context");
    assert ChildPaths(v, 1, "", false) == ChildPaths(v, 0, "", false) + AllPaths(Model(dumped), "context", false);
    LeavesAreAmongPaths(v, "");
  }

  /** The condition on keys is needed: a dotted sibling can lend a hidden model field its path. */
  lemma DottedSiblingCoversModel()
    ensures var v := Object([Field("a", Model(OneField("b", Scalar("7")))), Field("a.b", Object([]))]);
            UniqueKeys(v) && LeafPaths(v, "") <= AllPaths(v, "", false) && !ModelsAreBare(v)
  {
    var dumped := OneField("b", Scalar("7"));
    var v := Object([Field("a", Model(dumped)), Field("a.b", Object([]))]);
    assert KeyAt(v, 0) == "a" && ChildAt(v, 0) == Model(dumped) && KeyAt(v, 1) == "a.b" && ChildAt(v, 1) == Object([]);
    assert KeyAt(dumped, 0) == "b" && ChildAt(dumped, 0) == Scalar("7");
    assert !ModelsAreBare(ChildAt(v, 0));
    assert Extend("a", "b") == "a.b";
    assert LeafPaths(dumped, "a") == {"a.b"} by {
      assert ChildLeafPaths(dumped, 1, "a") == ChildLeafPaths(dumped, 0, "a") + LeafPaths(Scalar("7"), "a.b");
    }
    assert LeafPaths(v, "") == {"a.b"} by {
      assert ChildLeafPaths(v, 2, "") == ChildLeafPaths(v, 1, "") + LeafPaths(Object([]), "a.b");
      assert ChildLeafPaths(v, 1, "") == ChildLeafPaths(v, 0, "") + LeafPaths(Model(dumped), "a");
    }
    ChildPathIncluded(v, 2, "", false, 1);
  }
}
