/**
 Passing a dictionary of tensors from one pipeline stage to the next. With an
 all-gather group, each rank sends one slice of a tensor and the receivers put the
 slices together again.
 */
module TensorDict {
  import opened Wrappers
  import opened Arith
  import opened Tensors

  datatype Data = Data(shape: Shape, onCpu: bool, cells: seq<int>)
  datatype Value = Plain(obj: int) | Tens(t: Data) | Pending
  datatype Meta = PlainMeta(obj: int) | TensorMeta(shape: Shape, onCpu: bool)
  datatype Entry = Entry(key: string, value: Value)
  datatype MetaEntry = MetaEntry(key: string, meta: Meta)

  /** `group`: size of the all-gather group; `overrides`: the per-key switches. */
  datatype Config = Config(group: Option<nat>, overrides: Option<map<string, bool>>)

  /** What goes over the wire, on the CPU group's channel or the device group's. */
  datatype Message = Message(onCpu: bool, cells: seq<int>)
  datatype Post = Post(key: string, shape: Shape, onCpu: bool, count: nat, gathered: bool)

  ghost predicate ValidDict(d: seq<Entry>)
  {
    && (forall i :: 0 <= i < |d| ==> !d[i].value.Pending?)
    && (forall i :: 0 <= i < |d| && d[i].value.Tens? ==> |d[i].value.t.cells| == Product(d[i].value.t.shape))
    && (forall i, j :: 0 <= i < j < |d| ==> d[i].key != d[j].key)
  }

  predicate ValidConfig(cfg: Config)
  {
    cfg.group.Some? ==> cfg.group.value > 0
  }

  function ShouldUseAllGather(key: string, numel: nat, cfg: Config): bool
    requires ValidConfig(cfg)
  {
    if cfg.group.None? then false else
      var byDefault := numel % cfg.group.value == 0;
      if cfg.overrides.None? then byDefault
      else if key in cfg.overrides.value then cfg.overrides.value[key] else byDefault
  }

  ghost predicate Overridden(key: string, cfg: Config, on: bool)
  {
    cfg.overrides.Some? && key in cfg.overrides.value && cfg.overrides.value[key] == on
  }

  /**
   A tensor travels whole without a group, when its override says so, and, if it has
   no override, when the group does not divide its size. All others travel in slices.
   */
  ghost predicate TravelsWhole(key: string, numel: nat, cfg: Config)
    requires ValidConfig(cfg)
  {
    || cfg.group == None
    || Overridden(key, cfg, false)
    || (!Overridden(key, cfg, true) && numel % cfg.group.value != 0)
  }

  lemma WholeIff(key: string, numel: nat, cfg: Config)
    requires ValidConfig(cfg)
    ensures TravelsWhole(key, numel, cfg) <==> !ShouldUseAllGather(key, numel, cfg)
  {
  }

  function MetaOf(v: Value): Meta
    requires !v.Pending?
  {
    if v.Tens? then TensorMeta(v.t.shape, v.t.onCpu) else PlainMeta(v.obj)
  }

  /** _split_tensor_dict: keys with values or tensor metadata, in order. */
  function Metas(d: seq<Entry>): (m: seq<MetaEntry>)
    requires ValidDict(d)
    ensures |m| == |d|
  {
    seq(|d|, i requires 0 <= i < |d| => MetaEntry(d[i].key, MetaOf(d[i].value)))
  }

  /** t.reshape(n, -1)[q], for a tensor whose size n divides. */
  function Slice(cells: seq<int>, n: nat, q: nat): (s: seq<int>)
    requires n > 0 && q < n && |cells| % n == 0
    ensures |s| == |cells| / n
  {
    var width := |cells| / n;
    GridBound(q, 0, n, width + 1);
    MulMonotone(q, n, width);
    assert n * width == |cells|;
    cells[q * width..q * width + width]
  }

  predicate Posted(m: MetaEntry)
  {
    m.meta.TensorMeta? && Product(m.meta.shape) != 0
  }

  function PostOf(m: MetaEntry, cfg: Config): Post
    requires ValidConfig(cfg) && Posted(m)
  {
    var numel := Product(m.meta.shape);
    var gathered := ShouldUseAllGather(m.key, numel, cfg);
    Post(m.key, m.meta.shape, m.meta.onCpu, if gathered then numel / cfg.group.value else numel, gathered)
  }

  /** The slicing is defined: torch raises when a size does not divide. */
  predicate Sliceable(m: MetaEntry, cfg: Config)
    requires ValidConfig(cfg)
  {
    Posted(m) && ShouldUseAllGather(m.key, Product(m.meta.shape), cfg) ==>
      Product(m.meta.shape) % cfg.group.value == 0
  }

  predicate AllSliceable(metas: seq<MetaEntry>, cfg: Config)
    requires ValidConfig(cfg)
  {
    forall i :: 0 <= i < |metas| ==> Sliceable(metas[i], cfg)
  }

  function Posts(metas: seq<MetaEntry>, cfg: Config): seq<Post>
    requires ValidConfig(cfg)
  {
    if metas == [] then [] else
      var n := |metas| - 1;
      Posts(metas[..n], cfg) + if Posted(metas[n]) then [PostOf(metas[n], cfg)] else []
  }

  function MessageOf(e: Entry, cfg: Config, q: nat): Message
    requires ValidConfig(cfg) && (cfg.group.Some? ==> q < cfg.group.value)
    requires e.value.Tens? && |e.value.t.cells| == Product(e.value.t.shape)
    requires Sliceable(MetaEntry(e.key, MetaOf(e.value)), cfg)
  {
    var t := e.value.t;
    if |t.cells| != 0 && ShouldUseAllGather(e.key, |t.cells|, cfg)
    then Message(t.onCpu, Slice(t.cells, cfg.group.value, q))
    else Message(t.onCpu, t.cells)
  }

  ghost predicate Sendable(d: seq<Entry>, cfg: Config, q: nat)
  {
    && ValidDict(d) && ValidConfig(cfg)
    && (cfg.group.Some? ==> q < cfg.group.value)
    && AllSliceable(Metas(d), cfg)
  }

  lemma SendablePrefix(d: seq<Entry>, cfg: Config, q: nat)
    requires Sendable(d, cfg, q) && d != []
    ensures Sendable(d[..|d| - 1], cfg, q)
    ensures Metas(d)[..|d| - 1] == Metas(d[..|d| - 1])
  {
    assert Metas(d)[..|d| - 1] == Metas(d[..|d| - 1]);
  }

  /** The messages one rank of the group sends for its copy of the dictionary. */
  ghost function Wire(d: seq<Entry>, cfg: Config, q: nat): seq<Message>
    requires Sendable(d, cfg, q)
  {
    if d == [] then [] else
      var n := |d| - 1;
      SendablePrefix(d, cfg, q);
      assert Sliceable(Metas(d)[n], cfg);
      Wire(d[..n], cfg, q) + if Posted(Metas(d)[n]) then [MessageOf(d[n], cfg, q)] else []
  }

  lemma NotPostedSliceable(m: MetaEntry, cfg: Config)
    requires ValidConfig(cfg) && !Posted(m)
    ensures Sliceable(m, cfg)
  {
  }

  // ----- what goes over the wire, without the loops -----

  /** The number of tensors with content among the first j entries. */
  ghost function Before(metas: seq<MetaEntry>, j: nat): nat
    requires j <= |metas|
  {
    |set k: nat | k < j && metas[k].meta.TensorMeta? && Product(metas[k].meta.shape) > 0|
  }

  lemma {:induction false} PlaceIsBefore(metas: seq<MetaEntry>, j: nat)
    requires j <= |metas|
    ensures Place(metas, j) == Before(metas, j)
  {
    hide Product;
    if j > 0 {
      PlaceIsBefore(metas, j - 1);
      var shorter := set k: nat | k < j - 1 && metas[k].meta.TensorMeta? && Product(metas[k].meta.shape) > 0;
      var longer := set k: nat | k < j && metas[k].meta.TensorMeta? && Product(metas[k].meta.shape) > 0;
      assert longer == if Posted(metas[j - 1]) then shorter + {j - 1} else shorter;
    }
  }

  /** A message for tensor t: all of it, or the q-th of as many equal slices as the group has ranks. */
  ghost predicate SentAs(message: Message, key: string, t: Data, cfg: Config, q: nat)
    requires ValidConfig(cfg)
  {
    && message.onCpu == t.onCpu
    && if TravelsWhole(key, |t.cells|, cfg) then message.cells == t.cells else
         var width := |t.cells| / cfg.group.value;
         && |t.cells| == cfg.group.value * width && q * width + width <= |t.cells|
         && message.cells == t.cells[q * width..q * width + width]
  }

  /** Every tensor that is to travel in slices can be cut into them. */
  ghost predicate Cuttable(metas: seq<MetaEntry>, cfg: Config)
    requires ValidConfig(cfg)
  {
    forall j :: 0 <= j < |metas| && metas[j].meta.TensorMeta? && Product(metas[j].meta.shape) > 0 ==>
      TravelsWhole(metas[j].key, Product(metas[j].meta.shape), cfg)
      || Product(metas[j].meta.shape) % cfg.group.value == 0
  }

  /** One message for every tensor with content, in the order of the dictionary. */
  ghost predicate SentInOrder(d: seq<Entry>, cfg: Config, q: nat, wire: seq<Message>)
    requires ValidDict(d) && ValidConfig(cfg)
  {
    && |wire| == Before(Metas(d), |d|)
    && forall j :: 0 <= j < |d| && d[j].value.Tens? && d[j].value.t.cells != [] ==>
      && Before(Metas(d), j) < |wire|
      && SentAs(wire[Before(Metas(d), j)], d[j].key, d[j].value.t, cfg, q)
  }

  /** One posted receive for every tensor with content, of the size of the message. */
  ghost predicate PostedInOrder(metas: seq<MetaEntry>, cfg: Config, posts: seq<Post>)
    requires ValidConfig(cfg)
  {
    && |posts| == Before(metas, |metas|)
    && forall j :: 0 <= j < |metas| && metas[j].meta.TensorMeta? && Product(metas[j].meta.shape) > 0 ==>
      var key, shape, onCpu := metas[j].key, metas[j].meta.shape, metas[j].meta.onCpu;
      && Before(metas, j) < |posts|
      && posts[Before(metas, j)] ==
         if TravelsWhole(key, Product(shape), cfg) then Post(key, shape, onCpu, Product(shape), false)
         else Post(key, shape, onCpu, Product(shape) / cfg.group.value, true)
  }

  lemma CuttableIff(metas: seq<MetaEntry>, cfg: Config)
    requires ValidConfig(cfg)
    ensures AllSliceable(metas, cfg) <==> Cuttable(metas, cfg)
  {
    forall j | 0 <= j < |metas|
      ensures Sliceable(metas[j], cfg) <==>
        (metas[j].meta.TensorMeta? && Product(metas[j].meta.shape) > 0 ==>
         TravelsWhole(metas[j].key, Product(metas[j].meta.shape), cfg)
         || Product(metas[j].meta.shape) % cfg.group.value == 0)
    {
      if Posted(metas[j]) {
        WholeIff(metas[j].key, Product(metas[j].meta.shape), cfg);
      }
    }
  }

  lemma MessageSentAs(e: Entry, cfg: Config, q: nat)
    requires ValidConfig(cfg) && (cfg.group.Some? ==> q < cfg.group.value)
    requires e.value.Tens? && |e.value.t.cells| == Product(e.value.t.shape) > 0
    requires Sliceable(MetaEntry(e.key, MetaOf(e.value)), cfg)
    ensures SentAs(MessageOf(e, cfg, q), e.key, e.value.t, cfg, q)
  {
    hide TravelsWhole, ShouldUseAllGather, Slice;
    var cells := e.value.t.cells;
    WholeIff(e.key, |cells|, cfg);
    if !TravelsWhole(e.key, |cells|, cfg) {
      NoGroupIsWhole(e.key, |cells|, cfg);
      SliceIs(cells, cfg.group.value, q);
      assert |cells| == cfg.group.value * (|cells| / cfg.group.value);
    }
  }

  lemma NoGroupIsWhole(key: string, numel: nat, cfg: Config)
    requires ValidConfig(cfg) && !TravelsWhole(key, numel, cfg)
    ensures cfg.group.Some?
  {
  }

  lemma WireInOrder(d: seq<Entry>, cfg: Config, q: nat)
    requires Sendable(d, cfg, q)
    ensures SentInOrder(d, cfg, q, Wire(d, cfg, q))
  {
    hide Wire, Posts, Place, MessageOf, SentAs, Before, Sliceable;
    var metas := Metas(d);
    SizesMatch(d, cfg, q);
    PostPlace(metas, cfg);
    PlaceIsBefore(metas, |d|);
    forall j | 0 <= j < |d| && d[j].value.Tens? && d[j].value.t.cells != []
      ensures Before(metas, j) < |Wire(d, cfg, q)|
      ensures SentAs(Wire(d, cfg, q)[Before(metas, j)], d[j].key, d[j].value.t, cfg, q)
    {
      PlaceIsBefore(metas, j);
      WirePlace(d, cfg, q, j);
      MessageSentAs(d[j], cfg, q);
    }
  }

  lemma PostsInOrder(metas: seq<MetaEntry>, cfg: Config)
    requires ValidConfig(cfg)
    ensures PostedInOrder(metas, cfg, Posts(metas, cfg))
  {
    hide Posts, Place, Before, ShouldUseAllGather, TravelsWhole;
    PostPlace(metas, cfg);
    PlaceIsBefore(metas, |metas|);
    forall j | 0 <= j < |metas| && Posted(metas[j])
      ensures Before(metas, j) == Place(metas, j)
      ensures TravelsWhole(metas[j].key, Product(metas[j].meta.shape), cfg) <==>
        !ShouldUseAllGather(metas[j].key, Product(metas[j].meta.shape), cfg)
    {
      PlaceIsBefore(metas, j);
      WholeIff(metas[j].key, Product(metas[j].meta.shape), cfg);
    }
  }

  /**
   The messages of one rank. It fails exactly when a tensor that is to travel in
   slices cannot be cut; the second clause needs no loop to be read.
   */
  method ISendTensorDict(d: seq<Entry>, cfg: Config, q: nat) returns (wire: Option<seq<Message>>)
    requires ValidDict(d) && ValidConfig(cfg) && (cfg.group.Some? ==> q < cfg.group.value)
    ensures wire.Some? <==> Cuttable(Metas(d), cfg)
    ensures wire.Some? ==> SentInOrder(d, cfg, q, wire.value)
    ensures wire.Some? ==> AllSliceable(Metas(d), cfg) && wire.value == Wire(d, cfg, q)
  {
    hide MessageOf, Sliceable, ShouldUseAllGather, Cuttable, SentInOrder;
    CuttableIff(Metas(d), cfg);
    var sent := [];
    for i := 0 to |d|
      invariant AllSliceable(Metas(d[..i]), cfg)
      invariant sent == Wire(d[..i], cfg, q)
    {
      assert d[..i + 1][..i] == d[..i];
      assert Metas(d[..i + 1])[..i] == Metas(d[..i]);
      assert Metas(d)[i] == Metas(d[..i + 1])[i] == MetaEntry(d[i].key, MetaOf(d[i].value));
      if d[i].value.Tens? && |d[i].value.t.cells| != 0 {
        if !Sliceable(Metas(d)[i], cfg) {
          return None;
        }
        sent := sent + [MessageOf(d[i], cfg, q)];
      } else {
        NotPostedSliceable(Metas(d)[i], cfg);
      }
    }
    assert d[..|d|] == d;
    WireInOrder(d, cfg, q);
    wire := Some(sent);
  }

  /** What the receiver puts in its dictionary before any message has arrived. */
  function InitialValue(m: MetaEntry): Value
  {
    if Posted(m) then Pending
    else if m.meta.TensorMeta? then Tens(Data(m.meta.shape, m.meta.onCpu, []))
    else Plain(m.meta.obj)
  }

  ghost predicate IsInitial(dict: map<string, Value>, metas: seq<MetaEntry>)
  {
    && (forall i :: 0 <= i < |metas| ==> metas[i].key in dict && dict[metas[i].key] == InitialValue(metas[i]))
    && (forall k :: k in dict ==> exists i :: 0 <= i < |metas| && metas[i].key == k)
  }

  lemma InitialExtends(dict: map<string, Value>, metas: seq<MetaEntry>, m: MetaEntry)
    requires IsInitial(dict, metas)
    requires forall i :: 0 <= i < |metas| ==> metas[i].key != m.key
    ensures IsInitial(dict[m.key := InitialValue(m)], metas + [m])
  {
    var d, ms := dict[m.key := InitialValue(m)], metas + [m];
    forall k | k in d
      ensures exists i :: 0 <= i < |ms| && ms[i].key == k
    {
      if k == m.key {
        assert ms[|metas|].key == k;
      } else {
        var i :| 0 <= i < |metas| && metas[i].key == k;
        assert ms[i].key == k;
      }
    }
  }

  /** False stands for the failed reshape of a tensor that does not divide into slices. */
  method IRecvTensorDict(metas: seq<MetaEntry>, cfg: Config)
    returns (ok: bool, dict: map<string, Value>, posts: seq<Post>)
    requires ValidConfig(cfg)
    requires forall i, j :: 0 <= i < j < |metas| ==> metas[i].key != metas[j].key
    ensures ok <==> Cuttable(metas, cfg)
    ensures ok ==> PostedInOrder(metas, cfg, posts)
    ensures ok ==> AllSliceable(metas, cfg) && posts == Posts(metas, cfg) && IsInitial(dict, metas)
  {
    hide IsInitial, PostOf, Sliceable, Cuttable, PostedInOrder;
    CuttableIff(metas, cfg);
    PostsInOrder(metas, cfg);
    ok, dict, posts := true, map[], [];
    EmptyIsInitial();
    for i := 0 to |metas|
      invariant ok && AllSliceable(metas[..i], cfg)
      invariant posts == Posts(metas[..i], cfg)
      invariant IsInitial(dict, metas[..i])
    {
      var m := metas[i];
      assert metas[..i + 1][..i] == metas[..i];
      assert metas[..i + 1] == metas[..i] + [m];
      InitialExtends(dict, metas[..i], m);
      if m.meta.TensorMeta? {
        if Product(m.meta.shape) == 0 {
          NotPostedSliceable(m, cfg);
          dict := dict[m.key := Tens(Data(m.meta.shape, m.meta.onCpu, []))];
        } else {
          if !Sliceable(m, cfg) {
            ok := false;
            return;
          }
          posts := posts + [PostOf(m, cfg)];
          dict := dict[m.key := Pending];
        }
      } else {
        NotPostedSliceable(m, cfg);
        dict := dict[m.key := Plain(m.meta.obj)];
      }
    }
    assert metas[..|metas|] == metas;
  }

  lemma EmptyIsInitial()
    ensures IsInitial(map[], [])
  {
  }

  /** all_gather along dimension 0 of the i-th message of every rank of the group. */
  function GatheredCells(wires: seq<seq<Message>>, i: nat, n: nat): seq<int>
    requires n <= |wires| && forall q :: 0 <= q < n ==> i < |wires[q]|
  {
    if n == 0 then [] else GatheredCells(wires, i, n - 1) + wires[n - 1][i].cells
  }

  function Received(post: Post, wires: seq<seq<Message>>, i: nat, r: nat): Data
    requires r < |wires| && forall q :: 0 <= q < |wires| ==> i < |wires[q]|
  {
    Data(post.shape, post.onCpu, if post.gathered then GatheredCells(wires, i, |wires|) else wires[r][i].cells)
  }

  ghost predicate PostedKeys(dict: map<string, Value>, posts: seq<Post>)
  {
    && (forall i :: 0 <= i < |posts| ==> posts[i].key in dict)
    && (forall i, j :: 0 <= i < j < |posts| ==> posts[i].key != posts[j].key)
  }

  /** `after` is `before` with the value of post i under its key, for the first n posts. */
  ghost predicate Stored(before: map<string, Value>, after: map<string, Value>, posts: seq<Post>, values: seq<Data>,
                         n: nat)
    requires |values| == |posts| && n <= |posts|
  {
    && after.Keys == before.Keys
    && (forall i :: 0 <= i < n && posts[i].key in after ==> after[posts[i].key] == Tens(values[i]))
    && (forall k :: k in before && (forall i :: 0 <= i < n ==> posts[i].key != k) ==> after[k] == before[k])
  }

  function Arrived(posts: seq<Post>, wire: seq<Message>): (v: seq<Data>)
    requires |wire| == |posts|
    ensures |v| == |posts|
  {
    seq(|posts|, i requires 0 <= i < |posts| => Data(posts[i].shape, posts[i].onCpu, wire[i].cells))
  }

  function Completed(posts: seq<Post>, wires: seq<seq<Message>>, r: nat): (v: seq<Data>)
    requires r < |wires| && forall q :: 0 <= q < |wires| ==> |wires[q]| == |posts|
    ensures |v| == |posts|
  {
    seq(|posts|, i requires 0 <= i < |posts| => Received(posts[i], wires, i, r))
  }

  lemma StoredStep(before: map<string, Value>, after: map<string, Value>, posts: seq<Post>, values: seq<Data>, i: nat)
    requires |values| == |posts| && i < |posts| && PostedKeys(before, posts)
    requires Stored(before, after, posts, values, i)
    ensures Stored(before, after[posts[i].key := Tens(values[i])], posts, values, i + 1)
    ensures after[posts[i].key] == before[posts[i].key]
  {
  }

  method WaitAll(initial: map<string, Value>, posts: seq<Post>, wire: seq<Message>) returns (dict: map<string, Value>)
    requires |wire| == |posts| && PostedKeys(initial, posts)
    ensures Stored(initial, dict, posts, Arrived(posts, wire), |posts|)
  {
    dict := initial;
    for i := 0 to |posts|
      invariant Stored(initial, dict, posts, Arrived(posts, wire), i)
    {
      StoredStep(initial, dict, posts, Arrived(posts, wire), i);
      dict := dict[posts[i].key := Tens(Data(posts[i].shape, posts[i].onCpu, wire[i].cells))];
    }
  }

  /** Wait for every handle, then run every postprocess step. */
  method RecvTensorDict(initial: map<string, Value>, posts: seq<Post>, wires: seq<seq<Message>>, r: nat)
    returns (dict: map<string, Value>)
    requires r < |wires| && forall q :: 0 <= q < |wires| ==> |wires[q]| == |posts|
    requires PostedKeys(initial, posts)
    ensures Stored(initial, dict, posts, Completed(posts, wires, r), |posts|)
  {
    dict := WaitAll(initial, posts, wires[r]);
    ghost var waited := dict;
    var values := Completed(posts, wires, r);
    for i := 0 to |posts|
      invariant Stored(waited, dict, posts, values, i)
    {
      StoredStep(waited, dict, posts, values, i);
      if posts[i].gathered {
        dict := dict[posts[i].key := Tens(values[i])];
      } else {
        ArrivedIsCompleted(posts, wires, r, i);
        assert dict[posts[i].key := Tens(values[i])] == dict;
      }
    }
  }

  lemma ArrivedIsCompleted(posts: seq<Post>, wires: seq<seq<Message>>, r: nat, i: nat)
    requires r < |wires| && forall q :: 0 <= q < |wires| ==> |wires[q]| == |posts|
    requires i < |posts| && !posts[i].gathered
    ensures Arrived(posts, wires[r])[i] == Completed(posts, wires, r)[i]
  {
  }

  // ----- sender and receiver fit together -----

  lemma {:induction false} SizesMatch(d: seq<Entry>, cfg: Config, q: nat)
    requires Sendable(d, cfg, q)
    ensures |Wire(d, cfg, q)| == |Posts(Metas(d), cfg)|
    ensures forall i :: 0 <= i < |Wire(d, cfg, q)| ==>
      && Wire(d, cfg, q)[i].onCpu == Posts(Metas(d), cfg)[i].onCpu
      && |Wire(d, cfg, q)[i].cells| == Posts(Metas(d), cfg)[i].count
  {
    if d != [] {
      SendablePrefix(d, cfg, q);
      SizesMatch(d[..|d| - 1], cfg, q);
    }
  }

  /** Where in the stream of messages entry j goes. */
  function Place(metas: seq<MetaEntry>, j: nat): nat
    requires j <= |metas|
  {
    if j == 0 then 0 else Place(metas, j - 1) + if Posted(metas[j - 1]) then 1 else 0
  }

  lemma {:induction false} PostPlace(metas: seq<MetaEntry>, cfg: Config)
    requires ValidConfig(cfg)
    ensures |Posts(metas, cfg)| == Place(metas, |metas|)
    ensures forall j :: 0 <= j < |metas| && Posted(metas[j]) ==>
      Place(metas, j) < |Posts(metas, cfg)| && Posts(metas, cfg)[Place(metas, j)] == PostOf(metas[j], cfg)
  {
    if metas != [] {
      var n := |metas| - 1;
      PostPlace(metas[..n], cfg);
      forall j | 0 <= j <= n
        ensures Place(metas[..n], j) == Place(metas, j)
      {
        PlacePrefix(metas, n, j);
      }
    }
  }

  lemma {:induction false} PlacePrefix(metas: seq<MetaEntry>, n: nat, j: nat)
    requires j <= n <= |metas|
    ensures Place(metas[..n], j) == Place(metas, j)
  {
    if j > 0 {
      PlacePrefix(metas, n, j - 1);
    }
  }

  lemma {:induction false} WirePlace(d: seq<Entry>, cfg: Config, q: nat, j: nat)
    requires Sendable(d, cfg, q) && j < |d| && Posted(Metas(d)[j])
    ensures Sliceable(Metas(d)[j], cfg)
    ensures Place(Metas(d), j) < |Wire(d, cfg, q)|
    ensures Wire(d, cfg, q)[Place(Metas(d), j)] == MessageOf(d[j], cfg, q)
  {
    var n := |d| - 1;
    SendablePrefix(d, cfg, q);
    SizesMatch(d[..n], cfg, q);
    PostPlace(Metas(d[..n]), cfg);
    PlacePrefix(Metas(d), n, j);
    PlacePrefix(Metas(d), n, n);
    if j < n {
      WirePlace(d[..n], cfg, q, j);
    }
  }

  lemma SliceIs(cells: seq<int>, n: nat, q: nat)
    requires n > 0 && q < n && |cells| % n == 0
    ensures (q + 1) * (|cells| / n) == q * (|cells| / n) + |cells| / n <= |cells|
    ensures Slice(cells, n, q) == cells[q * (|cells| / n)..q * (|cells| / n) + |cells| / n]
  {
    MulDistributes(q, 1, |cells| / n);
    MulMonotone(q + 1, n, |cells| / n);
    assert n * (|cells| / n) == |cells|;
  }

  /** The slices of one tensor, laid end to end, are the tensor. */
  lemma {:induction false} SlicesConcatenate(cells: seq<int>, n: nat, k: nat, wires: seq<seq<Message>>, i: nat)
    requires n > 0 && k <= n == |wires| && |cells| % n == 0
    requires forall q :: 0 <= q < n ==> i < |wires[q]|
    requires forall q :: 0 <= q < n ==> wires[q][i].cells == Slice(cells, n, q)
    ensures k * (|cells| / n) <= |cells|
    ensures GatheredCells(wires, i, k) == cells[..k * (|cells| / n)]
  {
    hide Slice;
    if k > 0 {
      SlicesConcatenate(cells, n, k - 1, wires, i);
      SliceIs(cells, n, k - 1);
      TakeThenSlice(cells, (k - 1) * (|cells| / n), k * (|cells| / n));
    }
  }

  lemma TakeThenSlice<T>(s: seq<T>, i: nat, j: nat)
    requires i <= j <= |s|
    ensures s[..i] + s[i..j] == s[..j]
  {
  }

  lemma {:induction false} GatheredSlice(wires: seq<seq<Message>>, i: nat, k: nat, width: nat, q: nat)
    requires q < k <= |wires|
    requires forall p :: 0 <= p < |wires| ==> i < |wires[p]| && |wires[p][i].cells| == width
    ensures |GatheredCells(wires, i, k)| == k * width
    ensures q * width + width <= k * width
    ensures GatheredCells(wires, i, k)[q * width..q * width + width] == wires[q][i].cells
  {
    GatheredLength(wires, i, k, width);
    GatheredLength(wires, i, k - 1, width);
    MulDistributes(k - 1, 1, width);
    MulMonotone(q, k, width);
    var front, back := GatheredCells(wires, i, k - 1), wires[k - 1][i].cells;
    if q < k - 1 {
      GatheredSlice(wires, i, k - 1, width, q);
      SliceOfFront(front, back, q * width, q * width + width);
    } else {
      assert (front + back)[|front|..|front| + width] == back;
    }
  }

  lemma SliceOfFront<T>(u: seq<T>, v: seq<T>, i: nat, j: nat)
    requires i <= j <= |u|
    ensures (u + v)[i..j] == u[i..j]
  {
  }

  lemma {:induction false} GatheredLength(wires: seq<seq<Message>>, i: nat, k: nat, width: nat)
    requires k <= |wires|
    requires forall p :: 0 <= p < |wires| ==> i < |wires[p]| && |wires[p][i].cells| == width
    ensures |GatheredCells(wires, i, k)| == k * width
  {
    if k > 0 {
      GatheredLength(wires, i, k - 1, width);
      MulDistributes(k - 1, 1, width);
    }
  }

  /** A gathered tensor equals a given one exactly when each rank sent that tensor's slice. */
  lemma GatheredIff(cells: seq<int>, wires: seq<seq<Message>>, i: nat)
    requires |wires| > 0 && |cells| % |wires| == 0
    requires forall q :: 0 <= q < |wires| ==> i < |wires[q]| && |wires[q][i].cells| == |cells| / |wires|
    ensures GatheredCells(wires, i, |wires|) == cells <==>
      forall q :: 0 <= q < |wires| ==> wires[q][i].cells == Slice(cells, |wires|, q)
  {
    var n, width := |wires|, |cells| / |wires|;
    assert n * width == |cells|;
    if forall q :: 0 <= q < n ==> wires[q][i].cells == Slice(cells, n, q) {
      SlicesConcatenate(cells, n, n, wires, i);
      assert cells[..n * width] == cells;
    }
    if GatheredCells(wires, i, n) == cells {
      forall q | 0 <= q < n
        ensures wires[q][i].cells == Slice(cells, n, q)
      {
        GatheredSlice(wires, i, n, width, q);
      }
    }
  }

  // ----- the whole transfer -----

  function GroupSize(cfg: Config): nat
  {
    if cfg.group.Some? then cfg.group.value else 1
  }

  /** The same keys, shapes and devices on every rank of the sending group. */
  ghost predicate SameMetadata(ds: seq<seq<Entry>>, cfg: Config)
  {
    && ValidConfig(cfg) && |ds| == GroupSize(cfg)
    && (forall q :: 0 <= q < |ds| ==> ValidDict(ds[q]))
    && (forall q, p :: 0 <= q < |ds| && 0 <= p < |ds| ==> Metas(ds[q]) == Metas(ds[p]))
  }

  predicate IsGathered(m: MetaEntry, cfg: Config)
    requires ValidConfig(cfg)
  {
    Posted(m) && ShouldUseAllGather(m.key, Product(m.meta.shape), cfg)
  }

  lemma EntryTensor(d: seq<Entry>, j: nat)
    requires ValidDict(d) && j < |d|
    ensures Metas(d)[j].key == d[j].key
    ensures Posted(Metas(d)[j]) ==>
      d[j].value.Tens? && |d[j].value.t.cells| == Product(Metas(d)[j].meta.shape) > 0
  {
  }

  /** Slice q of rank q's tensor j is what slice q of rank r's tensor j is. */
  ghost predicate SliceAgrees(ds: seq<seq<Entry>>, cfg: Config, r: nat, j: nat, q: nat)
    requires SameMetadata(ds, cfg) && r < |ds| && q < |ds| && j < |ds[r]|
    requires AllSliceable(Metas(ds[r]), cfg) && IsGathered(Metas(ds[r])[j], cfg)
  {
    assert |Metas(ds[q])| == |Metas(ds[r])|;
    EntryTensor(ds[q], j);
    EntryTensor(ds[r], j);
    Slice(ds[q][j].value.t.cells, |ds|, q) == Slice(ds[r][j].value.t.cells, |ds|, q)
  }

  /** Every sliced tensor is replicated as far as rank r can tell. */
  ghost predicate Replicated(ds: seq<seq<Entry>>, cfg: Config, r: nat)
    requires SameMetadata(ds, cfg) && r < |ds| && AllSliceable(Metas(ds[r]), cfg)
  {
    forall j, q :: 0 <= j < |ds[r]| && IsGathered(Metas(ds[r])[j], cfg) && 0 <= q < |ds| ==>
      SliceAgrees(ds, cfg, r, j, q)
  }

  /** The received mapping is the sent dictionary. */
  ghost predicate Delivered(dict: map<string, Value>, d: seq<Entry>)
  {
    && (forall j :: 0 <= j < |d| ==> d[j].key in dict && dict[d[j].key] == d[j].value)
    && (forall k :: k in dict ==> exists j :: 0 <= j < |d| && d[j].key == k)
  }

  /** The entry a post was made for. */
  lemma {:induction false} EntryOfPost(metas: seq<MetaEntry>, cfg: Config, i: nat) returns (j: nat)
    requires ValidConfig(cfg) && i < |Posts(metas, cfg)|
    ensures j < |metas| && Posted(metas[j]) && Posts(metas, cfg)[i] == PostOf(metas[j], cfg)
    ensures Place(metas, j) == i
  {
    var n := |metas| - 1;
    PostPlace(metas[..n], cfg);
    PlacePrefix(metas, n, n);
    if i < |Posts(metas[..n], cfg)| {
      j := EntryOfPost(metas[..n], cfg, i);
      PlacePrefix(metas, n, j);
    } else {
      j := n;
    }
  }

  /**
   There are as many posts as messages, and the i-th of both belong to the same entry:
   they agree on key, channel and size, and the message carries that entry's tensor.
   */
  lemma SendMatchesReceive(d: seq<Entry>, cfg: Config, q: nat)
    requires Sendable(d, cfg, q)
    ensures |Wire(d, cfg, q)| == |Posts(Metas(d), cfg)|
    ensures forall i :: 0 <= i < |Wire(d, cfg, q)| ==>
      && Wire(d, cfg, q)[i].onCpu == Posts(Metas(d), cfg)[i].onCpu
      && |Wire(d, cfg, q)[i].cells| == Posts(Metas(d), cfg)[i].count
      && FromOneEntry(d, cfg, q, Posts(Metas(d), cfg)[i], Wire(d, cfg, q)[i])
  {
    hide Wire, Posts, Place, MessageOf, Sliceable, Posted;
    SizesMatch(d, cfg, q);
    forall i | 0 <= i < |Wire(d, cfg, q)|
      ensures FromOneEntry(d, cfg, q, Posts(Metas(d), cfg)[i], Wire(d, cfg, q)[i])
    {
      var j := EntryOfPost(Metas(d), cfg, i);
      WirePlace(d, cfg, q, j);
    }
  }

  ghost predicate FromOneEntry(d: seq<Entry>, cfg: Config, q: nat, post: Post, message: Message)
    requires Sendable(d, cfg, q)
  {
    exists j :: (&& 0 <= j < |d| && Posted(Metas(d)[j]) && Sliceable(Metas(d)[j], cfg)
                 && post == PostOf(Metas(d)[j], cfg) && post.key == d[j].key && message == MessageOf(d[j], cfg, q))
  }

  lemma PostKeys(dict: map<string, Value>, metas: seq<MetaEntry>, cfg: Config)
    requires ValidConfig(cfg) && IsInitial(dict, metas)
    requires forall i, j :: 0 <= i < j < |metas| ==> metas[i].key != metas[j].key
    ensures PostedKeys(dict, Posts(metas, cfg))
  {
    var posts := Posts(metas, cfg);
    forall i | 0 <= i < |posts|
      ensures posts[i].key in dict
    {
      var k := EntryOfPost(metas, cfg, i);
    }
    forall i, j | 0 <= i < j < |posts|
      ensures posts[i].key != posts[j].key
    {
      var k := EntryOfPost(metas, cfg, i);
      var l := EntryOfPost(metas, cfg, j);
    }
  }

  /** What each rank of the group has put on the wire. */
  ghost predicate SentBy(ds: seq<seq<Entry>>, cfg: Config, wires: seq<seq<Message>>)
  {
    && SameMetadata(ds, cfg) && |wires| == |ds|
    && (forall q :: 0 <= q < |ds| ==> AllSliceable(Metas(ds[q]), cfg))
    && (forall q :: 0 <= q < |ds| ==> wires[q] == Wire(ds[q], cfg, q))
  }

  lemma WiresMatch(ds: seq<seq<Entry>>, cfg: Config, wires: seq<seq<Message>>, r: nat)
    requires SentBy(ds, cfg, wires) && r < |ds|
    ensures forall q :: 0 <= q < |ds| ==> |wires[q]| == |Posts(Metas(ds[r]), cfg)|
  {
    forall q | 0 <= q < |ds|
      ensures |wires[q]| == |Posts(Metas(ds[r]), cfg)|
    {
      SizesMatch(ds[q], cfg, q);
    }
  }

  /** A posted entry arrives as rank r's own value, or as the gathered slices of all ranks. */
  lemma PostedEntryArrives(ds: seq<seq<Entry>>, cfg: Config, wires: seq<seq<Message>>, r: nat, j: nat)
    requires SentBy(ds, cfg, wires) && r < |ds| && j < |ds[r]| && Posted(Metas(ds[r])[j])
    requires forall q :: 0 <= q < |ds| ==> |wires[q]| == |Posts(Metas(ds[r]), cfg)|
    ensures var metas := Metas(ds[r]);
      var i := Place(metas, j);
      && i < |Posts(metas, cfg)| && Posts(metas, cfg)[i] == PostOf(metas[j], cfg)
      && (Tens(Received(Posts(metas, cfg)[i], wires, i, r)) == ds[r][j].value <==>
          (IsGathered(metas[j], cfg) ==> forall q :: 0 <= q < |ds| ==> SliceAgrees(ds, cfg, r, j, q)))
  {
    hide Wire, Posts, Place, MessageOf, SliceAgrees;
    var metas := Metas(ds[r]);
    PostPlace(metas, cfg);
    MessageAt(ds, cfg, wires, r, j, r);
    if IsGathered(metas[j], cfg) {
      GatheredEntryArrives(ds, cfg, wires, r, j);
    }
  }

  /** Rank q's message for entry j: its slice, or the whole tensor. */
  lemma MessageAt(ds: seq<seq<Entry>>, cfg: Config, wires: seq<seq<Message>>, r: nat, j: nat, q: nat)
    requires SentBy(ds, cfg, wires) && r < |ds| && q < |ds| && j < |ds[r]| && Posted(Metas(ds[r])[j])
    ensures var i := Place(Metas(ds[r]), j);
      && j < |ds[q]| && ds[q][j].value.Tens? && ds[r][j].value.Tens?
      && |ds[q][j].value.t.cells| == |ds[r][j].value.t.cells|
      && i < |wires[q]|
      && (if IsGathered(Metas(ds[r])[j], cfg)
          then cfg.group.Some? && |ds| == cfg.group.value && |ds[q][j].value.t.cells| % |ds| == 0
               && wires[q][i].cells == Slice(ds[q][j].value.t.cells, |ds|, q)
          else wires[q][i].cells == ds[q][j].value.t.cells)
  {
    hide Wire, Place, Slice;
    assert Metas(ds[q]) == Metas(ds[r]) && |Metas(ds[q])| == |ds[q]|;
    WirePlace(ds[q], cfg, q, j);
    EntryTensor(ds[q], j);
    EntryTensor(ds[r], j);
  }

  lemma GatheredEntryArrives(ds: seq<seq<Entry>>, cfg: Config, wires: seq<seq<Message>>, r: nat, j: nat)
    requires SentBy(ds, cfg, wires) && r < |ds| && j < |ds[r]| && IsGathered(Metas(ds[r])[j], cfg)
    ensures ds[r][j].value.Tens?
    ensures forall q :: 0 <= q < |ds| ==> Place(Metas(ds[r]), j) < |wires[q]|
    ensures GatheredCells(wires, Place(Metas(ds[r]), j), |wires|) == ds[r][j].value.t.cells <==>
      forall q :: 0 <= q < |ds| ==> SliceAgrees(ds, cfg, r, j, q)
  {
    hide Wire, Place;
    var i, cells := Place(Metas(ds[r]), j), ds[r][j].value.t.cells;
    forall q | 0 <= q < |ds|
      ensures i < |wires[q]| && |cells| % |ds| == 0 && |wires[q][i].cells| == |cells| / |ds|
      ensures wires[q][i].cells == Slice(cells, |ds|, q) <==> SliceAgrees(ds, cfg, r, j, q)
    {
      MessageAt(ds, cfg, wires, r, j, q);
    }
    GatheredIff(cells, wires, i);
  }

  lemma OnlySentKeys(d: seq<Entry>, initial: map<string, Value>, dict: map<string, Value>, posts: seq<Post>,
                     done: seq<Data>, n: nat)
    requires ValidDict(d) && IsInitial(initial, Metas(d))
    requires n <= |posts| == |done| && Stored(initial, dict, posts, done, n)
    ensures forall k :: k in dict ==> exists j :: 0 <= j < |d| && d[j].key == k
  {
    hide ValidDict, InitialValue;
    assert dict.Keys == initial.Keys;
    forall k | k in dict
      ensures exists j :: 0 <= j < |d| && d[j].key == k
    {
      var j :| 0 <= j < |Metas(d)| && Metas(d)[j].key == k;
      assert d[j].key == k;
    }
  }

  /**
   A finished receive holds exactly the sent dictionary if and only if every tensor
   that travelled in slices was replicated; tensors sent whole, empty tensors and
   plain values always arrive.
   */
  lemma DeliveredIffReplicated(ds: seq<seq<Entry>>, cfg: Config, wires: seq<seq<Message>>, r: nat,
                               initial: map<string, Value>, dict: map<string, Value>)
    requires SentBy(ds, cfg, wires) && r < |ds|
    requires IsInitial(initial, Metas(ds[r]))
    requires forall q :: 0 <= q < |ds| ==> |wires[q]| == |Posts(Metas(ds[r]), cfg)|
    requires var posts := Posts(Metas(ds[r]), cfg);
      Stored(initial, dict, posts, Completed(posts, wires, r), |posts|)
    ensures Delivered(dict, ds[r]) <==> Replicated(ds, cfg, r)
  {
    hide Stored, IsInitial, IsGathered, Completed, Wire, Posts, Place, Received, MessageOf, PostOf, SliceAgrees;
    var metas, d := Metas(ds[r]), ds[r];
    forall j | 0 <= j < |d|
      ensures d[j].key in dict
      ensures dict[d[j].key] == d[j].value <==>
        (IsGathered(metas[j], cfg) ==> forall q :: 0 <= q < |ds| ==> SliceAgrees(ds, cfg, r, j, q))
    {
      EntryArrives(ds, cfg, wires, r, initial, dict, j);
    }
    OnlySentKeys(d, initial, dict, Posts(metas, cfg), Completed(Posts(metas, cfg), wires, r), |Posts(metas, cfg)|);
  }

  /** Where the value of an entry comes from: its completed receive, or what was there before. */
  lemma EntryIs(ds: seq<seq<Entry>>, cfg: Config, wires: seq<seq<Message>>, r: nat,
                initial: map<string, Value>, dict: map<string, Value>, j: nat)
    requires SentBy(ds, cfg, wires) && r < |ds| && j < |ds[r]|
    requires IsInitial(initial, Metas(ds[r]))
    requires forall q :: 0 <= q < |ds| ==> |wires[q]| == |Posts(Metas(ds[r]), cfg)|
    requires var posts := Posts(Metas(ds[r]), cfg);
      Stored(initial, dict, posts, Completed(posts, wires, r), |posts|)
    ensures ds[r][j].key in dict
    ensures var metas, i := Metas(ds[r]), Place(Metas(ds[r]), j);
      if Posted(metas[j])
      then i < |Posts(metas, cfg)| && Posts(metas, cfg)[i] == PostOf(metas[j], cfg)
           && dict[ds[r][j].key] == Tens(Received(Posts(metas, cfg)[i], wires, i, r))
      else dict[ds[r][j].key] == ds[r][j].value
  {
    hide Wire, Posts, Place, Received;
    var metas, d := Metas(ds[r]), ds[r];
    var posts := Posts(metas, cfg);
    assert metas[j].key in initial;
    PostPlace(metas, cfg);
    if !Posted(metas[j]) {
      forall i | 0 <= i < |posts|
        ensures posts[i].key != d[j].key
      {
        var k := EntryOfPost(metas, cfg, i);
      }
      assert dict[d[j].key] == initial[metas[j].key] == InitialValue(metas[j]);
    }
  }

  lemma EntryArrives(ds: seq<seq<Entry>>, cfg: Config, wires: seq<seq<Message>>, r: nat,
                     initial: map<string, Value>, dict: map<string, Value>, j: nat)
    requires SentBy(ds, cfg, wires) && r < |ds| && j < |ds[r]|
    requires IsInitial(initial, Metas(ds[r]))
    requires forall q :: 0 <= q < |ds| ==> |wires[q]| == |Posts(Metas(ds[r]), cfg)|
    requires var posts := Posts(Metas(ds[r]), cfg);
      Stored(initial, dict, posts, Completed(posts, wires, r), |posts|)
    ensures ds[r][j].key in dict
    ensures dict[ds[r][j].key] == ds[r][j].value <==>
      (IsGathered(Metas(ds[r])[j], cfg) ==> forall q :: 0 <= q < |ds| ==> SliceAgrees(ds, cfg, r, j, q))
  {
    hide Wire, Posts, Place, MessageOf, SliceAgrees, Stored, IsInitial, Completed, Received, PostOf;
    EntryIs(ds, cfg, wires, r, initial, dict, j);
    if Posted(Metas(ds[r])[j]) {
      PostedEntryArrives(ds, cfg, wires, r, j);
    }
  }

  /** Cell x of rank q's tensor j. */
  ghost predicate CellFrom(ds: seq<seq<Entry>>, q: int, j: nat, x: nat, cell: int)
  {
    && 0 <= q < |ds| && j < |ds[q]| && ds[q][j].value.Tens?
    && x < |ds[q][j].value.t.cells| && ds[q][j].value.t.cells[x] == cell
  }

  /**
   What rank r holds of entry j: its own value of plain entries, empty tensors and
   tensors that travel whole, whatever the other ranks hold; and of a tensor that
   travels in slices, each cell from the rank whose slice it lies in.
   */
  ghost predicate ArrivesAs(ds: seq<seq<Entry>>, cfg: Config, r: nat, j: nat, v: Value)
    requires SameMetadata(ds, cfg) && r < |ds| && j < |ds[r]|
  {
    var own := ds[r][j].value;
    if !own.Tens? || own.t.cells == [] || TravelsWhole(ds[r][j].key, |own.t.cells|, cfg) then v == own else
      var width := |own.t.cells| / cfg.group.value;
      && v.Tens? && v.t.shape == own.t.shape && v.t.onCpu == own.t.onCpu && |v.t.cells| == |own.t.cells|
      && width > 0
      && forall x :: 0 <= x < |v.t.cells| ==> CellFrom(ds, x / width, j, x, v.t.cells[x])
  }

  lemma GatheredCell(ds: seq<seq<Entry>>, cfg: Config, wires: seq<seq<Message>>, r: nat, j: nat, x: nat)
    requires SentBy(ds, cfg, wires) && r < |ds| && j < |ds[r]| && IsGathered(Metas(ds[r])[j], cfg)
    requires ds[r][j].value.Tens? && x < |ds[r][j].value.t.cells|
    ensures var i, width := Place(Metas(ds[r]), j), |ds[r][j].value.t.cells| / |ds|;
      && (forall p :: 0 <= p < |ds| ==> i < |wires[p]|)
      && |GatheredCells(wires, i, |ds|)| == |ds[r][j].value.t.cells|
      && width > 0
      && CellFrom(ds, x / width, j, x, GatheredCells(wires, i, |ds|)[x])
  {
    hide Wire, Place, Slice, GatheredCells;
    var i, n, width := Place(Metas(ds[r]), j), |ds|, |ds[r][j].value.t.cells| / |ds|;
    forall p | 0 <= p < n
      ensures i < |wires[p]| && |wires[p][i].cells| == width
    {
      MessageAt(ds, cfg, wires, r, j, p);
    }
    MessageAt(ds, cfg, wires, r, j, r);
    assert n * width == |ds[r][j].value.t.cells|;
    GridSplit(x, n, width);
    var q, k := x / width, x % width;
    MessageAt(ds, cfg, wires, r, j, q);
    GatheredLength(wires, i, n, width);
    GatheredSlice(wires, i, n, width, q);
    SliceIs(ds[q][j].value.t.cells, n, q);
    SameCell(GatheredCells(wires, i, n), ds[q][j].value.t.cells, q * width, width, k);
  }

  lemma SameCell(u: seq<int>, v: seq<int>, at: nat, width: nat, k: nat)
    requires k < width && at + width <= |u| && at + width <= |v| && u[at..at + width] == v[at..at + width]
    ensures u[at + k] == v[at + k]
  {
    assert u[at..at + width][k] == v[at..at + width][k];
  }

  lemma EntryArrivesAs(ds: seq<seq<Entry>>, cfg: Config, wires: seq<seq<Message>>, r: nat,
                       initial: map<string, Value>, dict: map<string, Value>, j: nat)
    requires SentBy(ds, cfg, wires) && r < |ds| && j < |ds[r]|
    requires IsInitial(initial, Metas(ds[r]))
    requires forall q :: 0 <= q < |ds| ==> |wires[q]| == |Posts(Metas(ds[r]), cfg)|
    requires var posts := Posts(Metas(ds[r]), cfg);
      Stored(initial, dict, posts, Completed(posts, wires, r), |posts|)
    ensures ds[r][j].key in dict && ArrivesAs(ds, cfg, r, j, dict[ds[r][j].key])
  {
    hide Wire, Posts, Place, MessageOf, Stored, IsInitial, Completed, TravelsWhole, ShouldUseAllGather, GatheredCells;
    var metas := Metas(ds[r]);
    EntryIs(ds, cfg, wires, r, initial, dict, j);
    if Posted(metas[j]) {
      EntryTensor(ds[r], j);
      WholeIff(metas[j].key, Product(metas[j].meta.shape), cfg);
      MessageAt(ds, cfg, wires, r, j, r);
      if IsGathered(metas[j], cfg) {
        var cells := GatheredCells(wires, Place(metas, j), |ds|);
        GatheredCell(ds, cfg, wires, r, j, 0);
        forall x | 0 <= x < |cells|
          ensures CellFrom(ds, x / (|cells| / |ds|), j, x, cells[x])
        {
          GatheredCell(ds, cfg, wires, r, j, x);
        }
      }
    }
  }

  /** Send from every rank of the group, receive on rank r. */
  method Transfer(ds: seq<seq<Entry>>, cfg: Config, r: nat) returns (dict: Option<map<string, Value>>)
    requires SameMetadata(ds, cfg) && r < |ds|
    ensures dict.Some? <==> Cuttable(Metas(ds[r]), cfg)
    ensures dict.Some? ==> dict.value.Keys == (set j | 0 <= j < |ds[r]| :: ds[r][j].key)
    ensures dict.Some? ==> forall j :: 0 <= j < |ds[r]| ==> ArrivesAs(ds, cfg, r, j, dict.value[ds[r][j].key])
    ensures dict.Some? ==> AllSliceable(Metas(ds[r]), cfg)
    ensures dict.Some? ==> (Delivered(dict.value, ds[r]) <==> Replicated(ds, cfg, r))
  {
    hide Cuttable, SentInOrder, PostedInOrder, ArrivesAs, Wire, Posts, Received, Delivered, Replicated, SliceAgrees,
         IsInitial, Stored, Completed, Sliceable;
    CuttableIff(Metas(ds[r]), cfg);
    var wires := [];
    for q := 0 to |ds|
      invariant |wires| == q
      invariant forall p :: 0 <= p < q ==> AllSliceable(Metas(ds[p]), cfg) && wires[p] == Wire(ds[p], cfg, p)
    {
      assert Metas(ds[q]) == Metas(ds[r]);
      var wire := ISendTensorDict(ds[q], cfg, q);
      if wire.None? {
        return None;
      }
      wires := wires + [wire.value];
    }
    var metas := Metas(ds[r]);
    assert SentBy(ds, cfg, wires) by {
      forall p | 0 <= p < |ds| ensures Metas(ds[p]) == metas {}
    }
    var ok, initial, posts := IRecvTensorDict(metas, cfg);
    WiresMatch(ds, cfg, wires, r);
    PostKeys(initial, metas, cfg);
    var result := RecvTensorDict(initial, posts, wires, r);
    DeliveredIffReplicated(ds, cfg, wires, r, initial, result);
    forall j | 0 <= j < |ds[r]|
      ensures ds[r][j].key in result && ArrivesAs(ds, cfg, r, j, result[ds[r][j].key])
    {
      EntryArrivesAs(ds, cfg, wires, r, initial, result, j);
    }
    OnlySentKeys(ds[r], initial, result, posts, Completed(posts, wires, r), |posts|);
    dict := Some(result);
  }
}
