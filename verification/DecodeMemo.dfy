/**
  `_imdecode` inside and outside `shared_decodes`.  The memo keeps one image per key and hands out
  copies; images are arrays on the heap that callers modify in place.  The theorem is that no run
  of decodes, modifications and nested blocks can tell the memo from decoding afresh every time.
*/
module DecodeMemo {
  import opened Common

  type Data = seq<int>

  type Key = (Data, int)

  /** The image codec: a pure function of the bytes and the flags, `None` when they cannot be decoded. */
  type Codec = (Data, int) -> Option<seq<int>>

  method Copy(a: array<int>) returns (b: array<int>)
    ensures fresh(b) && b[..] == a[..]
  {
    b := new int[a.Length](i requires 0 <= i < a.Length reads a => a[i]);
  }

  class DecodeContext {
    const codec: Codec
    /** `None` outside `shared_decodes`. */
    var memo: Option<map<Key, array<int>>>
    /** Every call that reached the codec. */
    ghost var consulted: seq<Key>

    constructor (codec: Codec)
      ensures this.codec == codec && memo == None && consulted == [] && Valid()
    {
      this.codec := codec;
      memo := None;
      consulted := [];
    }

    ghost function MemoImages(): set<array<int>>
      reads this
    {
      if memo.Some? then memo.value.Values else {}
    }

    /** Every memo entry holds what its bytes decode to. */
    ghost predicate Valid()
      reads this, MemoImages()
    {
      memo.Some? ==> forall k :: k in memo.value ==> codec(k.0, k.1) == Some(memo.value[k][..])
    }

    method CvDecode(data: Data, flags: int) returns (img: array?<int>)
      modifies this`consulted
      ensures img == null <==> codec(data, flags) == None
      ensures img != null ==> fresh(img) && codec(data, flags) == Some(img[..])
      ensures consulted == old(consulted) + [(data, flags)]
    {
      consulted := consulted + [(data, flags)];
      match codec(data, flags)
      case None => img := null;
      case Some(pixels) =>
        img := new int[|pixels|](i requires 0 <= i < |pixels| => pixels[i]);
        assert img[..] == pixels;
    }

    /** The result is always a new array with the decoded pixels, never one the memo keeps. */
    method Imdecode(data: Data, flags: int) returns (img: array?<int>)
      requires Valid()
      modifies this`memo, this`consulted
      ensures Valid()
      ensures img == null <==> codec(data, flags) == None
      ensures img != null ==> fresh(img) && codec(data, flags) == Some(img[..]) && img !in MemoImages()
      ensures fresh(MemoImages() - old(MemoImages()))
      ensures memo.Some? <==> old(memo).Some?
      ensures memo.Some? ==>
                memo.value.Keys == old(memo).value.Keys + if img == null then {} else {(data, flags)}
      ensures memo.Some? ==> forall k :: k in old(memo).value ==> memo.value[k] == old(memo).value[k]
      ensures consulted == if old(memo.Some? && (data, flags) in memo.value) then old(consulted)
                           else old(consulted) + [(data, flags)]
    {
      if memo == None {
        img := CvDecode(data, flags);
        return;
      }
      var key := (data, flags);
      if key in memo.value {
        assert memo.value[key] in memo.value.Values;
        img := Copy(memo.value[key]);
        return;
      }
      var decoded := CvDecode(data, flags);
      if decoded == null {
        return null;
      }
      memo := Some(memo.value[key := decoded]);
      img := Copy(decoded);
    }
  }

  // ---------- Runs ----------

  /** What code under a context can do: decode, write into an image it received, or open a `shared_decodes` block. */
  datatype Op =
    | Decode(data: Data, flags: int)
    | Modify(which: nat, at: nat, value: int)
    | Shared(body: seq<Op>)

  /** The images held by callers, in the order received, and the results of all decodes. */
  datatype Outcome = Outcome(images: seq<seq<int>>, results: seq<Option<seq<int>>>)

  /** The reference meaning of a run: every decode starts from scratch and images are independent values. */
  function Reference(codec: Codec, ops: seq<Op>, o: Outcome): Outcome
    decreases ops
  {
    if |ops| == 0 then o
    else Reference(codec, ops[1..], ReferenceStep(codec, ops[0], o))
  }

  function ReferenceStep(codec: Codec, op: Op, o: Outcome): Outcome
    decreases op
  {
    match op
    case Decode(data, flags) =>
      var r := codec(data, flags);
      Outcome(if r == None then o.images else o.images + [r.value], o.results + [r])
    case Modify(which, at, value) =>
      if which < |o.images| && at < |o.images[which]|
      then o.(images := o.images[which := o.images[which][at := value]])
      else o
    case Shared(body) => Reference(codec, body, o)
  }

  /** The arrays `held` have pairwise different identities and exactly the contents `images`. */
  ghost predicate Hold(held: seq<array<int>>, images: seq<seq<int>>)
    reads held
  {
    && |held| == |images|
    && (forall i :: 0 <= i < |held| ==> held[i][..] == images[i])
    && (forall i, j :: 0 <= i < j < |held| ==> held[i] != held[j])
  }

  ghost predicate Apart(held: seq<array<int>>, kept: set<array<int>>) {
    forall i :: 0 <= i < |held| ==> held[i] !in kept
  }

  /** The operations of a run, carried out on the heap, agree with the reference on all results and all held images. */
  method Run(context: DecodeContext, ops: seq<Op>, held0: seq<array<int>>, results0: seq<Option<seq<int>>>,
             ghost images: seq<seq<int>>) returns (held: seq<array<int>>, results: seq<Option<seq<int>>>)
    requires context.Valid() && Hold(held0, images) && Apart(held0, context.MemoImages())
    modifies context, held0
    decreases ops
    ensures context.Valid() && Apart(held, context.MemoImages())
    ensures context.memo.Some? <==> old(context.memo).Some?
    ensures fresh(context.MemoImages() - old(context.MemoImages()))
    ensures held0 <= held && fresh(set i | |held0| <= i < |held| :: held[i])
    ensures var o := Reference(context.codec, ops, Outcome(images, results0));
            Hold(held, o.images) && results == o.results
  {
    if |ops| == 0 {
      return held0, results0;
    }
    var held1, results1 := Step(context, ops[0], held0, results0, images);
    ghost var o := ReferenceStep(context.codec, ops[0], Outcome(images, results0));
    held, results := Run(context, ops[1..], held1, results1, o.images);
  }

  method Step(context: DecodeContext, op: Op, held0: seq<array<int>>, results0: seq<Option<seq<int>>>,
              ghost images: seq<seq<int>>) returns (held: seq<array<int>>, results: seq<Option<seq<int>>>)
    requires context.Valid() && Hold(held0, images) && Apart(held0, context.MemoImages())
    modifies context, held0
    decreases op
    ensures context.Valid() && Apart(held, context.MemoImages())
    ensures context.memo.Some? <==> old(context.memo).Some?
    ensures fresh(context.MemoImages() - old(context.MemoImages()))
    ensures held0 <= held && fresh(set i | |held0| <= i < |held| :: held[i])
    ensures var o := ReferenceStep(context.codec, op, Outcome(images, results0));
            Hold(held, o.images) && results == o.results
  {
    match op
    case Decode(data, flags) =>
      var img := context.Imdecode(data, flags);
      if img == null {
        held, results := held0, results0 + [None];
      } else {
        held, results := held0 + [img], results0 + [Some(img[..])];
      }
    case Modify(which, at, value) =>
      held, results := held0, results0;
      if which < |held| && at < held[which].Length {
        held[which][at] := value;
      }
    case Shared(body) =>
      // `finally` puts the outer memo back whatever the block did to its own.
      var outer := context.memo;
      context.memo := Some(map[]);
      held, results := Run(context, body, held0, results0, images);
      context.memo := outer;
  }

  /**
    From a new context, any run of decodes, in-place modifications and shared blocks ends with the
    results and images of the reference run: the memo never shows, and no two images alias.
  */
  method RunFromScratch(codec: Codec, ops: seq<Op>) returns (held: seq<array<int>>, results: seq<Option<seq<int>>>)
    ensures var o := Reference(codec, ops, Outcome([], []));
            Hold(held, o.images) && results == o.results
  {
    var context := new DecodeContext(codec);
    held, results := Run(context, ops, [], [], []);
  }

  // ---------- What the reference run says ----------

  /** Every result of a run is the decoding of the bytes asked for, in order, whatever was modified in between. */
  function Asked(ops: seq<Op>): seq<Key>
    decreases ops
  {
    if |ops| == 0 then [] else AskedBy(ops[0]) + Asked(ops[1..])
  }

  function AskedBy(op: Op): seq<Key>
    decreases op
  {
    match op
    case Decode(data, flags) => [(data, flags)]
    case Modify(_, _, _) => []
    case Shared(body) => Asked(body)
  }

  function DecodeAll(codec: Codec, keys: seq<Key>): seq<Option<seq<int>>> {
    seq(|keys|, i requires 0 <= i < |keys| => codec(keys[i].0, keys[i].1))
  }

  lemma {:induction false} ResultsAreDecodings(codec: Codec, ops: seq<Op>, o: Outcome)
    ensures Reference(codec, ops, o).results == o.results + DecodeAll(codec, Asked(ops))
    decreases ops
  {
    if |ops| != 0 {
      StepResult(codec, ops[0], o);
      var o1 := ReferenceStep(codec, ops[0], o);
      ResultsAreDecodings(codec, ops[1..], o1);
      assert DecodeAll(codec, AskedBy(ops[0]) + Asked(ops[1..])) ==
             DecodeAll(codec, AskedBy(ops[0])) + DecodeAll(codec, Asked(ops[1..]));
    }
  }

  lemma {:induction false} StepResult(codec: Codec, op: Op, o: Outcome)
    ensures ReferenceStep(codec, op, o).results == o.results + DecodeAll(codec, AskedBy(op))
    decreases op
  {
    if op.Shared? {
      ResultsAreDecodings(codec, op.body, o);
    }
  }

  lemma {:induction false} ReferenceInOrder(codec: Codec, first: seq<Op>, rest: seq<Op>, o: Outcome)
    ensures Reference(codec, first + rest, o) == Reference(codec, rest, Reference(codec, first, o))
    decreases |first|
  {
    if |first| == 0 {
      assert first + rest == rest;
    } else {
      ReferenceInOrder(codec, first[1..], rest, ReferenceStep(codec, first[0], o));
      assert (first + rest)[1..] == first[1..] + rest;
    }
  }

  /** A `shared_decodes` block does what its operations would do without it. */
  lemma SharedBlocksAreInvisible(codec: Codec, before: seq<Op>, body: seq<Op>, after: seq<Op>, o: Outcome)
    ensures Reference(codec, before + [Shared(body)] + after, o) == Reference(codec, before + body + after, o)
  {
    ReferenceInOrder(codec, before + [Shared(body)], after, o);
    ReferenceInOrder(codec, before, [Shared(body)], o);
    ReferenceInOrder(codec, before + body, after, o);
    ReferenceInOrder(codec, before, body, o);
    var o1 := Reference(codec, before, o);
    assert [Shared(body)][1..] == [];
    assert Reference(codec, [Shared(body)], o1) == Reference(codec, [], ReferenceStep(codec, Shared(body), o1));
  }

  /** A decode adds its image, a modification changes the one value it names, and neither touches any other image. */
  lemma StepTouchesOneImage(codec: Codec, op: Op, o: Outcome)
    requires !op.Shared?
    ensures var o' := ReferenceStep(codec, op, o);
            && (forall i :: 0 <= i < |o.images| && !(op.Modify? && i == op.which) ==>
                  i < |o'.images| && o'.images[i] == o.images[i])
            && (op.Decode? ==>
                  |o'.images| == |o.images| + (if codec(op.data, op.flags) == None then 0 else 1) &&
                  (codec(op.data, op.flags) != None ==> Some(o'.images[|o.images|]) == codec(op.data, op.flags)))
            && (op.Modify? ==> |o'.images| == |o.images| && o'.results == o.results)
            && (op.Modify? && op.which < |o.images| ==>
                  && |o'.images[op.which]| == |o.images[op.which]|
                  && forall k :: 0 <= k < |o.images[op.which]| ==>
                       o'.images[op.which][k] == if k == op.at then op.value else o.images[op.which][k])
  {
  }
}
