/** Merging layers of gateway parameters (pkg/deployer/merge.go). */
module ParameterMerge {
  import opened Common

  // ---- Maps and slices; None is nil, which differs from an explicit empty value

  /** A Go map: an object, shared by whoever holds the pointer. */
  class GoMap<K(==), V> {
    var m: map<K, V>

    constructor (m: map<K, V>)
      ensures this.m == m
    {
      this.m := m;
    }
  }

  ghost function Value<K, V>(p: GoMap?<K, V>): Option<map<K, V>>
    reads p
  {
    if p == null then None else Some(p.m)
  }

  function MergeMaps<K, V>(dst: Option<map<K, V>>, src: Option<map<K, V>>): Option<map<K, V>> {
    if src.None? then dst else if dst.None? || |src.value| == 0 then src else Some(dst.value + src.value)
  }

  /** maps.Copy into the destination. */
  method CopyInto<K(==), V>(dst: GoMap<K, V>, src: GoMap<K, V>)
    modifies dst
    ensures dst.m == old(dst.m) + old(src.m)
  {
    var entries := src.m;
    var todo := entries.Keys;
    ghost var was := dst.m;
    assert was + (entries - todo) == was;
    while todo != {}
      invariant todo <= entries.Keys
      invariant dst.m == was + (entries - todo)
      decreases todo
    {
      var k :| k in todo;
      dst.m := dst.m[k := entries[k]];
      todo := todo - {k};
      assert dst.m == was + (entries - todo);
    }
    assert entries - todo == entries;
  }

  /** The result is one of the two operands, never a copy: the destination is written in place,
      and where there is no destination the source itself is returned. */
  method DeepMergeMaps<K(==), V>(dst: GoMap?<K, V>, src: GoMap?<K, V>) returns (r: GoMap?<K, V>)
    modifies dst
    ensures Value(r) == MergeMaps(old(Value(dst)), old(Value(src)))
    ensures r == if src == null || (dst != null && old(|src.m|) != 0) then dst else src
    ensures dst != null && r != dst ==> unchanged(dst)
  {
    if src == null { return dst; }
    if dst == null || |src.m| == 0 { return src; }
    CopyInto(dst, src);
    return dst;
  }

  function MergeSlices<T>(dst: Option<seq<T>>, src: Option<seq<T>>): Option<seq<T>> {
    if src.None? then dst else if dst.None? || |src.value| == 0 then src else Some(dst.value + src.value)
  }

  lemma MapIdentityAndReset<K, V>(a: Option<map<K, V>>)
    ensures MergeMaps(a, None) == a && MergeMaps(None, a) == a
    ensures MergeMaps(a, Some(map[])) == Some(map[])
  {
  }

  lemma SliceIdentityAndReset<T>(a: Option<seq<T>>)
    ensures MergeSlices(a, None) == a && MergeSlices(None, a) == a
    ensures MergeSlices(a, Some([])) == Some([])
  {
  }

  /** A middle layer that resets, then a last layer that does not restore every key. */
  ghost predicate MapResetLost<K, V>(a: Option<map<K, V>>, b: Option<map<K, V>>, c: Option<map<K, V>>) {
    b == Some(map[]) && c.Some? && c.value != map[] && a.Some? && !(a.value.Keys <= c.value.Keys)
  }

  lemma ResetMiddle<K, V>(x: map<K, V>, z: map<K, V>)
    requires z != map[]
    ensures MergeMaps(MergeMaps(Some(x), Some(map[])), Some(z)) == Some(z)
    ensures MergeMaps(Some(x), MergeMaps(Some(map[]), Some(z))) == Some(x + z)
    ensures x + z == z <==> x.Keys <= z.Keys
  {
    var none: map<K, V> := map[];
    assert none + z == z;
    if x + z == z {
      forall k | k in x.Keys ensures k in z.Keys { assert k in x + z; }
    }
  }

  lemma PlainMiddle<K, V>(x: map<K, V>, y: map<K, V>, z: map<K, V>)
    requires y != map[] && z != map[]
    ensures MergeMaps(MergeMaps(Some(x), Some(y)), Some(z)) == MergeMaps(Some(x), MergeMaps(Some(y), Some(z)))
  {
    var k :| k in z;
    assert k in y + z;
    assert |y + z| != 0;
    assert x + y + z == x + (y + z);
  }

  /** Grouping matters exactly when a reset in the middle is absorbed by the last layer. */
  lemma MapsAssociateIff<K, V>(a: Option<map<K, V>>, b: Option<map<K, V>>, c: Option<map<K, V>>)
    ensures MergeMaps(MergeMaps(a, b), c) == MergeMaps(a, MergeMaps(b, c)) <==> !MapResetLost(a, b, c)
  {
    if a.Some? && b.Some? && c.Some? && c.value != map[] {
      if b.value == map[] {
        ResetMiddle(a.value, c.value);
      } else {
        PlainMiddle(a.value, b.value, c.value);
      }
    }
  }

  ghost predicate SliceResetLost<T>(a: Option<seq<T>>, b: Option<seq<T>>, c: Option<seq<T>>) {
    b == Some([]) && c.Some? && c.value != [] && a.Some? && a.value != []
  }

  lemma SlicesAssociateIff<T>(a: Option<seq<T>>, b: Option<seq<T>>, c: Option<seq<T>>)
    ensures MergeSlices(MergeSlices(a, b), c) == MergeSlices(a, MergeSlices(b, c)) <==> !SliceResetLost(a, b, c)
  {
    if a.Some? && b.Some? && c.Some? {
      var x, y, z := a.value, b.value, c.value;
      assert y == [] ==> y + z == z;
      assert x + y + z == x + (y + z);
      assert |x + z| == |x| + |z|;
      assert x == [] ==> x + z == z;
    }
  }

  /** The counterexample: a base, a reset, an addition. */
  lemma ResetIsAbsorbed()
    ensures var a, b, c := Some(["x"]), Some([]), Some(["y"]);
            MergeSlices(MergeSlices(a, b), c) == Some(["y"]) && MergeSlices(a, MergeSlices(b, c)) == Some(["x", "y"])
  {
    assert ["x"] + ["y"] == ["x", "y"];
    var none: seq<string> := [];
    assert none + ["y"] == ["y"];
  }

  // ---- Chains of layers

  function MergeMapLayers<K, V>(layers: seq<Option<map<K, V>>>): Option<map<K, V>> {
    if layers == [] then None else MergeMaps(MergeMapLayers(layers[..|layers| - 1]), layers[|layers| - 1])
  }

  /** The layer sets the key, and no layer from it on is an explicit empty map. */
  ghost predicate SetsKey<K, V>(layers: seq<Option<map<K, V>>>, i: int, k: K) {
    && 0 <= i < |layers| && layers[i].Some? && k in layers[i].value
    && forall j :: i < j < |layers| ==> layers[j] != Some(map[])
  }

  lemma SetsKeySnoc<K, V>(layers: seq<Option<map<K, V>>>, i: nat, k: K)
    requires i < |layers| - 1
    ensures SetsKey(layers, i, k) <==> SetsKey(layers[..|layers| - 1], i, k) && layers[|layers| - 1] != Some(map[])
  {
    var front := layers[..|layers| - 1];
    assert forall j :: 0 <= j < |front| ==> front[j] == layers[j];
  }

  ghost predicate HasKey<K, V>(m: Option<map<K, V>>, k: K) { m.Some? && k in m.value }

  lemma MergedKey<K, V>(dst: Option<map<K, V>>, src: Option<map<K, V>>, k: K)
    ensures HasKey(MergeMaps(dst, src), k) <==> HasKey(src, k) || (HasKey(dst, k) && src != Some(map[]))
    ensures HasKey(src, k) ==> MergeMaps(dst, src).value[k] == src.value[k]
    ensures !HasKey(src, k) && HasKey(MergeMaps(dst, src), k) ==> MergeMaps(dst, src).value[k] == dst.value[k]
  {
  }

  /** Over any chain: a map exactly when some layer has one. */
  lemma {:induction false} AnyMapLayer<K, V>(layers: seq<Option<map<K, V>>>)
    ensures MergeMapLayers(layers).Some? <==> exists i :: 0 <= i < |layers| && layers[i].Some?
    decreases |layers|
  {
    if layers != [] {
      var front := layers[..|layers| - 1];
      AnyMapLayer(front);
      assert forall i :: 0 <= i < |front| ==> front[i] == layers[i];
    }
  }

  /** A key exactly when a layer after the last explicit empty map sets it. */
  lemma {:induction false} MapLayerKeys<K, V>(layers: seq<Option<map<K, V>>>, k: K)
    ensures HasKey(MergeMapLayers(layers), k) <==> exists i :: SetsKey(layers, i, k)
    decreases |layers|
  {
    if layers != [] {
      var n := |layers| - 1;
      MapLayerKeys(layers[..n], k);
      MergedKey(MergeMapLayers(layers[..n]), layers[n], k);
      if i :| SetsKey(layers, i, k) {
        if i < n { SetsKeySnoc(layers, i, k); }
      }
      if i :| SetsKey(layers[..n], i, k) { SetsKeySnoc(layers, i, k); }
      if HasKey(layers[n], k) { assert SetsKey(layers, n, k); }
    }
  }

  /** With the value of the last layer that sets it. */
  lemma {:induction false} MapLayers<K, V>(layers: seq<Option<map<K, V>>>, i: nat, k: K)
    requires SetsKey(layers, i, k) && forall j :: i < j < |layers| ==> !SetsKey(layers, j, k)
    ensures HasKey(MergeMapLayers(layers), k) && MergeMapLayers(layers).value[k] == layers[i].value[k]
    decreases |layers|
  {
    var n := |layers| - 1;
    MergedKey(MergeMapLayers(layers[..n]), layers[n], k);
    if i < n {
      SetsKeySnoc(layers, i, k);
      assert !SetsKey(layers, n, k);
      forall j | i < j < n ensures !SetsKey(layers[..n], j, k) { SetsKeySnoc(layers, j, k); }
      MapLayers(layers[..n], i, k);
    }
  }

  function MergeSliceLayers<T>(layers: seq<Option<seq<T>>>): Option<seq<T>> {
    if layers == [] then None else MergeSlices(MergeSliceLayers(layers[..|layers| - 1]), layers[|layers| - 1])
  }

  ghost function Concatenation<T>(layers: seq<Option<seq<T>>>): seq<T> {
    if layers == [] then []
    else
      var last := layers[|layers| - 1];
      Concatenation(layers[..|layers| - 1]) + if last == None then [] else last.value
  }

  /** Nothing from layer n on is an explicit empty slice. */
  ghost predicate NoReset<T>(layers: seq<Option<seq<T>>>, n: nat) {
    forall j :: n <= j < |layers| ==> layers[j] != Some([])
  }

  /** Over any chain: a slice exactly when some layer has one, and then the layers after the last
      explicit empty slice joined in order. */
  lemma {:induction false} SliceLayers<T>(layers: seq<Option<seq<T>>>, n: nat)
    requires n <= |layers| && NoReset(layers, n) && (n > 0 ==> layers[n - 1] == Some([]))
    ensures MergeSliceLayers(layers).Some? <==> exists i :: 0 <= i < |layers| && layers[i].Some?
    ensures MergeSliceLayers(layers).Some? ==> MergeSliceLayers(layers).value == Concatenation(layers[n..])
    decreases |layers|
  {
    if layers != [] {
      var front, last := layers[..|layers| - 1], layers[|layers| - 1];
      assert forall i :: 0 <= i < |front| ==> front[i] == layers[i];
      if n == |layers| {
        assert layers[n..] == [];
        assert layers[n - 1].Some?;
      } else {
        SliceLayers(front, n);
        assert layers[n..][..|layers| - n - 1] == front[n..];
        if MergeSliceLayers(front).None? { NothingToJoin(front[n..]); }
      }
    }
  }

  lemma {:induction false} NothingToJoin<T>(layers: seq<Option<seq<T>>>)
    requires forall i :: 0 <= i < |layers| ==> layers[i].None?
    ensures Concatenation(layers) == []
    decreases |layers|
  {
    if layers != [] { NothingToJoin(layers[..|layers| - 1]); }
  }

  // ---- Images

  datatype ImageFields = ImageFields(registry: Option<string>, repository: Option<string>, tag: Option<string>,
                                     digest: Option<string>,
                                     pullPolicy: Option<string>)

  class Image {
    var registry: Option<string>
    var repository: Option<string>
    var tag: Option<string>
    var digest: Option<string>
    var pullPolicy: Option<string>

    ghost function Fields(): ImageFields
      reads this
    {
      ImageFields(registry, repository, tag, digest, pullPolicy)
    }

    constructor Copy(other: Image)
      ensures Fields() == other.Fields()
    {
      registry, repository, tag, digest, pullPolicy := other.registry, other.repository, other.tag, other.digest,
        other.pullPolicy;
    }
  }

  ghost function FieldsOf(p: Image?): Option<ImageFields>
    reads p
  {
    if p == null then None else Some(p.Fields())
  }

  predicate NonEmpty(s: Option<string>) { s.Some? && s.value != "" }

  function Override(dst: Option<string>, src: Option<string>): Option<string> { if src.Some? then src else dst }

  /** A tag or digest that the layer leaves open: kept, or cleared when the layer sets the other. */
  function Coupled(dst: Option<string>, src: Option<string>, other: Option<string>): Option<string> {
    if src.Some? then src else if NonEmpty(other) then Some("") else dst
  }

  function MergeImage(dst: Option<ImageFields>, src: Option<ImageFields>): Option<ImageFields> {
    if src.None? then dst
    else
      var s := src.value;
      var d := if dst.None? then s else dst.value;
      Some(ImageFields(Override(d.registry, s.registry), Override(d.repository, s.repository),
                       Coupled(d.tag, s.tag, s.digest),
                       Coupled(d.digest, s.digest, s.tag), Override(d.pullPolicy, s.pullPolicy)))
  }

  method DeepMergeImage(dst: Image?, src: Image?) returns (r: Image?)
    modifies dst
    ensures FieldsOf(r) == MergeImage(old(FieldsOf(dst)), old(FieldsOf(src)))
    ensures dst != null ==> r == dst
    ensures dst == null && src != null ==> fresh(r)
  {
    if src == null { return dst; }
    if dst == null {
      r := new Image.Copy(src);
    } else {
      r := dst;
      if src.registry.Some? { r.registry := src.registry; }
      if src.repository.Some? { r.repository := src.repository; }
      if src.tag.Some? { r.tag := src.tag; }
      if src.digest.Some? { r.digest := src.digest; }
      if src.pullPolicy.Some? { r.pullPolicy := src.pullPolicy; }
    }
    var srcDigest, srcTag := src.digest, src.tag;
    if NonEmpty(srcDigest) && srcTag.None? { r.tag := Some(""); }
    if NonEmpty(srcTag) && srcDigest.None? { r.digest := Some(""); }
  }

  function MergeLayers(layers: seq<Option<ImageFields>>): Option<ImageFields> {
    if layers == [] then None else MergeImage(MergeLayers(layers[..|layers| - 1]), layers[|layers| - 1])
  }

  ghost function AllFields(layers: seq<Image?>): seq<Option<ImageFields>>
    reads layers
  {
    seq(|layers|, i requires 0 <= i < |layers| reads layers => FieldsOf(layers[i]))
  }

  /** Merging a chain of layers, first to last; no layer is written to. */
  method MergeImageLayers(layers: seq<Image?>) returns (r: Image?)
    ensures AllFields(layers) == old(AllFields(layers))
    ensures FieldsOf(r) == MergeLayers(AllFields(layers))
    ensures r != null ==> fresh(r)
  {
    r := null;
    ghost var fields := AllFields(layers);
    for n := 0 to |layers|
      invariant AllFields(layers) == fields
      invariant r != null ==> fresh(r)
      invariant FieldsOf(r) == MergeLayers(fields[..n])
    {
      assert fields[..n + 1][..n] == fields[..n] && fields[n] == FieldsOf(layers[n]);
      r := DeepMergeImage(r, layers[n]);
    }
    assert fields[..|fields|] == fields;
  }

  /** The layer says nothing about tag and digest. */
  predicate Quiet(layer: Option<ImageFields>) { layer.None? || (layer.value.tag.None? && layer.value.digest.None?) }

  /** When both are set in the result, both come from one layer: the last that mentions either. */
  lemma {:induction false} TagAndDigestFromOneLayer(layers: seq<Option<ImageFields>>)
    requires var r := MergeLayers(layers); r.Some? && NonEmpty(r.value.tag) && NonEmpty(r.value.digest)
    ensures exists i :: 0 <= i < |layers| && layers[i].Some?
                        && layers[i].value.tag == MergeLayers(layers).value.tag
                        && layers[i].value.digest == MergeLayers(layers).value.digest
                        && forall j :: i < j < |layers| ==> Quiet(layers[j])
    decreases |layers|
  {
    var front, last := layers[..|layers| - 1], layers[|layers| - 1];
    if Quiet(last) && MergeLayers(front).Some? {
      TagAndDigestFromOneLayer(front);
      var i :| 0 <= i < |front| && front[i].Some? && front[i].value.tag == MergeLayers(front).value.tag
               && front[i].value.digest == MergeLayers(front).value.digest
               && forall j :: i < j < |front| ==> Quiet(front[j]);
      assert layers[i] == front[i];
      forall j | i < j < |layers| ensures Quiet(layers[j]) { if j < |front| { assert layers[j] == front[j]; } }
    } else {
      assert layers[|layers| - 1] == last;
    }
  }

  ghost predicate Sets(s: Option<string>) { s != None && s != Some("") }

  /** The layer decides the tag: it sets it, or sets a digest instead. */
  ghost predicate DecidesTag(layer: Option<ImageFields>) {
    layer.Some? && (layer.value.tag != None || Sets(layer.value.digest))
  }

  ghost predicate DecidesDigest(layer: Option<ImageFields>) {
    layer.Some? && (layer.value.digest != None || Sets(layer.value.tag))
  }

  /** Over any chain the tag is the one of the last layer that decides it, cleared if that layer
      sets only a digest, and nil if no layer decides it; a digest likewise. */
  lemma {:induction false} TagFromLastLayer(layers: seq<Option<ImageFields>>, i: nat)
    requires i < |layers| && DecidesTag(layers[i]) && forall j :: i < j < |layers| ==> !DecidesTag(layers[j])
    ensures MergeLayers(layers).Some?
    ensures MergeLayers(layers).value.tag == if layers[i].value.tag == None then Some("") else layers[i].value.tag
    decreases |layers|
  {
    if i < |layers| - 1 {
      TagFromLastLayer(layers[..|layers| - 1], i);
      assert !DecidesTag(layers[|layers| - 1]);
    }
  }

  lemma {:induction false} NoTag(layers: seq<Option<ImageFields>>)
    requires forall i :: 0 <= i < |layers| ==> !DecidesTag(layers[i])
    ensures MergeLayers(layers).Some? ==> MergeLayers(layers).value.tag == None
    decreases |layers|
  {
    if layers != [] {
      NoTag(layers[..|layers| - 1]);
      assert !DecidesTag(layers[|layers| - 1]);
    }
  }

  lemma {:induction false} DigestFromLastLayer(layers: seq<Option<ImageFields>>, i: nat)
    requires i < |layers| && DecidesDigest(layers[i]) && forall j :: i < j < |layers| ==> !DecidesDigest(layers[j])
    ensures MergeLayers(layers).Some?
    ensures MergeLayers(layers).value.digest ==
            if layers[i].value.digest == None then Some("") else layers[i].value.digest
    decreases |layers|
  {
    if i < |layers| - 1 {
      DigestFromLastLayer(layers[..|layers| - 1], i);
      assert !DecidesDigest(layers[|layers| - 1]);
    }
  }

  lemma {:induction false} NoDigest(layers: seq<Option<ImageFields>>)
    requires forall i :: 0 <= i < |layers| ==> !DecidesDigest(layers[i])
    ensures MergeLayers(layers).Some? ==> MergeLayers(layers).value.digest == None
    decreases |layers|
  {
    if layers != [] {
      NoDigest(layers[..|layers| - 1]);
      assert !DecidesDigest(layers[|layers| - 1]);
    }
  }

  /** The last layer that sets the field, among the layers' values of one field. */
  function LastSet(values: seq<Option<string>>): Option<string> {
    if values == [] then None else Override(LastSet(values[..|values| - 1]), values[|values| - 1])
  }

  function FieldValues(layers: seq<Option<ImageFields>>, field: ImageFields -> Option<string>): seq<Option<string>> {
    seq(|layers|, i requires 0 <= i < |layers| => if layers[i].None? then None else field(layers[i].value))
  }

  lemma FieldValuesSnoc(layers: seq<Option<ImageFields>>, field: ImageFields -> Option<string>)
    requires layers != []
    ensures FieldValues(layers, field)[..|layers| - 1] == FieldValues(layers[..|layers| - 1], field)
  {
  }

  /** Registry, repository and pull policy are independent: each is the last layer's that sets it. */
  lemma {:induction false} OtherFieldsFromLastLayer(layers: seq<Option<ImageFields>>)
    ensures MergeLayers(layers).None? <==> forall i :: 0 <= i < |layers| ==> layers[i].None?
    ensures MergeLayers(layers).Some? ==>
              && MergeLayers(layers).value.registry == LastSet(FieldValues(layers, (f: ImageFields) => f.registry))
              && MergeLayers(layers).value.repository == LastSet(FieldValues(layers, (f: ImageFields) => f.repository))
              && MergeLayers(layers).value.pullPolicy == LastSet(FieldValues(layers, (f: ImageFields) => f.pullPolicy))
    ensures MergeLayers(layers).None? ==>
              && LastSet(FieldValues(layers, (f: ImageFields) => f.registry)) == None
              && LastSet(FieldValues(layers, (f: ImageFields) => f.repository)) == None
              && LastSet(FieldValues(layers, (f: ImageFields) => f.pullPolicy)) == None
    decreases |layers|
  {
    if layers != [] {
      OtherFieldsFromLastLayer(layers[..|layers| - 1]);
      FieldValuesSnoc(layers, (f: ImageFields) => f.registry);
      FieldValuesSnoc(layers, (f: ImageFields) => f.repository);
      FieldValuesSnoc(layers, (f: ImageFields) => f.pullPolicy);
    }
  }

  // ---- Probe handlers

  datatype ExecAction = ExecAction(command: Option<seq<string>>)

  datatype HTTPHeader = HTTPHeader(name: string, value: string)

  datatype HTTPGetAction = HTTPGetAction(path: string, port: IntOrString, host: string, scheme: string,
                                         headers: Option<seq<HTTPHeader>>)

  datatype TCPSocketAction = TCPSocketAction(port: IntOrString, host: string)

  datatype GRPCAction = GRPCAction(port: int, service: Option<string>)

  datatype ProbeHandler = ProbeHandler(exec: Option<ExecAction>, httpGet: Option<HTTPGetAction>,
                                       tcpSocket: Option<TCPSocketAction>,
                                       grpc: Option<GRPCAction>)

  function MergeComparable<T(==)>(dst: T, src: T, zero: T): T { if src == zero then dst else src }

  function MergePointers<T>(dst: Option<T>, src: Option<T>): Option<T> { if src.None? then dst else src }

  function MergeComparableLayers<T(==)>(values: seq<T>, zero: T): T {
    if values == [] then zero
    else MergeComparable(MergeComparableLayers(values[..|values| - 1], zero), values[|values| - 1], zero)
  }

  /** Over any chain the value is the last that is not zero, and zero if all are. */
  lemma {:induction false} LastNonZero<T>(values: seq<T>, zero: T, i: nat)
    requires i <= |values| && (i > 0 ==> values[i - 1] != zero)
    requires forall j :: i <= j < |values| ==> values[j] == zero
    ensures MergeComparableLayers(values, zero) == if i == 0 then zero else values[i - 1]
    decreases |values|
  {
    if i < |values| { LastNonZero(values[..|values| - 1], zero, i); }
  }

  function MergePointerLayers<T>(values: seq<Option<T>>): Option<T> {
    if values == [] then None
    else MergePointers(MergePointerLayers(values[..|values| - 1]), values[|values| - 1])
  }

  /** Over any chain the pointer is the last that is not nil, and nil if all are. */
  lemma {:induction false} LastNonNil<T>(values: seq<Option<T>>, i: nat)
    requires i <= |values| && (i > 0 ==> values[i - 1].Some?)
    requires forall j :: i <= j < |values| ==> values[j].None?
    ensures MergePointerLayers(values) == if i == 0 then None else values[i - 1]
    decreases |values|
  {
    if i < |values| { LastNonNil(values[..|values| - 1], i); }
  }

  const ZERO_PORT := Number(0)

  function MergeExec(dst: Option<ExecAction>, src: Option<ExecAction>): Option<ExecAction> {
    if src.None? then dst else if dst.None? then src
      else Some(ExecAction(MergePointers(dst.value.command, src.value.command)))
  }

  function MergeHTTPGet(dst: Option<HTTPGetAction>, src: Option<HTTPGetAction>): Option<HTTPGetAction> {
    if src.None? then dst else if dst.None? then src
    else Some(HTTPGetAction(MergeComparable(dst.value.path, src.value.path, ""),
                            MergeComparable(dst.value.port, src.value.port, ZERO_PORT),
                            MergeComparable(dst.value.host, src.value.host, ""),
                            MergeComparable(dst.value.scheme, src.value.scheme, ""),
                            MergeSlices(dst.value.headers, src.value.headers)))
  }

  function MergeTCPSocket(dst: Option<TCPSocketAction>, src: Option<TCPSocketAction>): Option<TCPSocketAction> {
    if src.None? then dst else if dst.None? then src
    else Some(TCPSocketAction(MergeComparable(dst.value.port, src.value.port, ZERO_PORT),
                              MergeComparable(dst.value.host, src.value.host, "")))
  }

  function MergeGRPC(dst: Option<GRPCAction>, src: Option<GRPCAction>): Option<GRPCAction> {
    if src.None? then dst else if dst.None? then src
    else Some(GRPCAction(MergeComparable(dst.value.port, src.value.port, 0),
                         MergePointers(dst.value.service, src.value.service)))
  }

  predicate HasAction(h: ProbeHandler) { h.exec.Some? || h.httpGet.Some? || h.tcpSocket.Some? || h.grpc.Some? }

  /** deepMergeProbeHandler. */
  function MergeProbeHandler(dst: ProbeHandler, src: ProbeHandler): ProbeHandler {
    var d := if HasAction(src) then ProbeHandler(None, None, None, None) else dst;
    ProbeHandler(MergeExec(d.exec, src.exec), MergeHTTPGet(d.httpGet, src.httpGet),
                 MergeTCPSocket(d.tcpSocket, src.tcpSocket),
                 MergeGRPC(d.grpc, src.grpc))
  }

  ghost predicate OneAction(h: ProbeHandler) {
    && (h.exec == None || (h.httpGet == None && h.tcpSocket == None && h.grpc == None))
    && (h.httpGet == None || (h.tcpSocket == None && h.grpc == None))
    && (h.tcpSocket == None || h.grpc == None)
  }

  function MergeProbeLayers(layers: seq<ProbeHandler>): ProbeHandler {
    if layers == [] then ProbeHandler(None, None, None, None)
      else MergeProbeHandler(MergeProbeLayers(layers[..|layers| - 1]), layers[|layers| - 1])
  }

  /** Over any chain the handler is the last layer's that has an action, whole; the
      field-by-field action merges never combine two layers. */
  lemma {:induction false} LastActionWins(layers: seq<ProbeHandler>)
    ensures !HasAction(MergeProbeLayers(layers)) <==> forall i :: 0 <= i < |layers| ==> !HasAction(layers[i])
    ensures HasAction(MergeProbeLayers(layers)) ==>
              exists i :: 0 <= i < |layers| && layers[i] == MergeProbeLayers(layers) && HasAction(layers[i])
                          && forall j :: i < j < |layers| ==> !HasAction(layers[j])
    decreases |layers|
  {
    if layers != [] {
      var front, last := layers[..|layers| - 1], layers[|layers| - 1];
      LastActionWins(front);
      assert forall i :: 0 <= i < |front| ==> front[i] == layers[i];
      if HasAction(last) {
        assert layers[|layers| - 1] == MergeProbeLayers(layers);
      } else if HasAction(MergeProbeLayers(front)) {
        var i :| 0 <= i < |front| && front[i] == MergeProbeLayers(front) && HasAction(front[i])
          && forall j :: i < j < |front| ==> !HasAction(front[j]);
        assert layers[i] == front[i];
      }
    }
  }

  /** So a chain of layers with at most one action each yields at most one action. */
  lemma AtMostOneAction(layers: seq<ProbeHandler>)
    requires forall i :: 0 <= i < |layers| ==> OneAction(layers[i])
    ensures OneAction(MergeProbeLayers(layers))
  {
    LastActionWins(layers);
  }
}
