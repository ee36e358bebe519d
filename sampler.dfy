/** A model of TextureSampler: once every few frames, after the camera has
    rendered, it reads one column of pixels from the render target and offers
    each registered TextureReader the intensity of the pixel it listens to.

    The engine is replaced by parameters: the frame counter is an `int`, and
    the render target is a function from pixel coordinates to grayscale
    intensity. ReadPixels followed by GetPixels is the read of the column
    from that function. */
module Sampler {
  import opened Reader

  datatype Option<T> = None | Some(value: T)

  /** The readable image the column is copied into; only its height matters. */
  datatype Texture = Texture(height: int)

  /** Minimum number of frames between two accepted samples. */
  const MinFrameInterval := 10

  /** A ToggleChildren call: the reader at position `reader` of the reader
      list is handed `intensity`. */
  datatype Dispatch = Dispatch(reader: nat, intensity: real)

  /** What the fan-out sees of one entry of the reader list: nothing for a
      null entry, otherwise the reader's pixel index. */
  function Slot(r: TextureReader?): (slot: Option<int>)
    reads r
    ensures slot.None? <==> r == null
    ensures slot.Some? ==> slot.value == r.samplePixelIndex
  {
    if r == null then None else Some(r.GetSamplePixelIndex())
  }

  /** A slot that gets a call: a reader whose pixel index lies inside a
      column of `height` pixels. */
  predicate Eligible(slot: Option<int>, height: int)
  {
    slot.Some? && 0 <= slot.value < height
  }

  /** The ToggleChildren calls of one sampling cycle over the reader slots
      `slots`, for the column `data`, in list order. */
  function Dispatches(slots: seq<Option<int>>, data: seq<real>): (ds: seq<Dispatch>)
    ensures forall k :: 0 <= k < |ds| ==>
      ds[k].reader < |slots| && Eligible(slots[ds[k].reader], |data|) &&
      ds[k].intensity == data[slots[ds[k].reader].value]
    ensures forall k, l :: 0 <= k < l < |ds| ==> ds[k].reader < ds[l].reader
  {
    if slots == [] then []
    else
      var p := |slots| - 1;
      Dispatches(slots[..p], data) +
      (if Eligible(slots[p], |data|) then [Dispatch(p, data[slots[p].value])] else [])
  }

  /** One more slot adds at most its own call at the end. */
  lemma DispatchesSnoc(slots: seq<Option<int>>, data: seq<real>, i: nat)
    requires i < |slots|
    ensures Dispatches(slots[..i + 1], data) ==
      Dispatches(slots[..i], data) +
      (if Eligible(slots[i], |data|) then [Dispatch(i, data[slots[i].value])] else [])
  {
    assert slots[..i + 1][..i] == slots[..i];
  }

  /** A reader gets a call exactly when it is eligible; a null reader or one
      asking for a missing pixel costs the others nothing. */
  lemma {:induction false} DispatchesExactly(slots: seq<Option<int>>, data: seq<real>, p: nat)
    requires p < |slots|
    ensures (exists k :: 0 <= k < |Dispatches(slots, data)| && Dispatches(slots, data)[k].reader == p)
            <==> Eligible(slots[p], |data|)
  {
    var q := |slots| - 1;
    var prefix := slots[..q];
    var ds := Dispatches(prefix, data);
    if Eligible(slots[q], |data|) {
      var ds' := ds + [Dispatch(q, data[slots[q].value])];
      assert Dispatches(slots, data) == ds';
      if p == q {
        assert ds'[|ds|].reader == p;
      } else {
        DispatchesExactly(prefix, data, p);
        forall k | 0 <= k < |ds'| && ds'[k].reader == p ensures k < |ds| && ds[k].reader == p { }
      }
    } else {
      assert Dispatches(slots, data) == ds;
      if p < q {
        DispatchesExactly(prefix, data, p);
      }
    }
  }

  /** Consecutive entries at least MinFrameInterval apart. */
  ghost predicate Debounced(frames: seq<int>)
  {
    forall i :: 0 < i < |frames| ==> frames[i] - frames[i - 1] >= MinFrameInterval
  }

  /** In a debounced history, entries `j - i` places apart are at least
      `(j - i) * MinFrameInterval` frames apart. */
  lemma {:induction false} DebouncedApart(frames: seq<int>, i: nat, j: nat)
    requires Debounced(frames) && i <= j < |frames|
    ensures frames[j] - frames[i] >= (j - i) * MinFrameInterval
    decreases j - i
  {
    if i < j {
      DebouncedApart(frames, i, j - 1);
    }
  }

  /** Appending a frame at least MinFrameInterval after the last one keeps
      a history debounced. */
  lemma DebouncedSnoc(frames: seq<int>, frame: int)
    requires Debounced(frames)
    requires |frames| > 0 ==> frame - frames[|frames| - 1] >= MinFrameInterval
    ensures Debounced(frames + [frame])
  {
  }

  /** ReadPixels of the one-pixel-wide column at (x, y) of height `height`
      into the texture, followed by GetPixels of that column. */
  function ReadColumn(renderTarget: (int, int) -> real, x: int, y: int, height: nat): (column: seq<real>)
    ensures |column| == height
    ensures forall i :: 0 <= i < height ==> column[i] == renderTarget(x, y + i)
  {
    seq(height, i => renderTarget(x, y + i))
  }

  class TextureSampler {
    /** The readable image; None once the sampler has shut itself down. */
    var texture2D: Option<Texture>
    const xPixelColumnSamplePosition: int
    const yPixelColumnSamplePosition: int
    const pixelColumnSampleHeight: nat
    /** The registered readers; None when no list is configured. */
    const textureReaders: Option<seq<TextureReader?>>
    /** Frame of the last accepted sample. */
    var lastFrameCalculation: int
    /** Re-entrancy guard of OnPostRender. */
    var processing: bool

    /** Whether Start has run. */
    ghost var started: bool
    /** Frames of all accepted samples, oldest first. */
    ghost var acceptedFrames: seq<int>

    ghost predicate Valid()
      reads this
    {
      (started && texture2D.Some? ==> !BadInput()) &&
      Debounced(acceptedFrames) &&
      (|acceptedFrames| > 0 ==> acceptedFrames[|acceptedFrames| - 1] == lastFrameCalculation)
    }

    /** The configuration Start refuses: no texture, no or an empty reader
        list, or a column that does not fit in the texture's height. */
    predicate BadInput()
      reads this
    {
      texture2D.None? ||
      textureReaders.None? ||
      |textureReaders.value| == 0 ||
      texture2D.value.height < yPixelColumnSamplePosition + pixelColumnSampleHeight
    }

    constructor (texture: Option<Texture>, x: int, y: int, height: nat, readers: Option<seq<TextureReader?>>)
      ensures texture2D == texture && textureReaders == readers
      ensures xPixelColumnSamplePosition == x && yPixelColumnSamplePosition == y
      ensures pixelColumnSampleHeight == height
      ensures lastFrameCalculation == 0 && !processing
      ensures !started && acceptedFrames == []
      ensures Valid()
    {
      texture2D := texture;
      xPixelColumnSamplePosition := x;
      yPixelColumnSamplePosition := y;
      pixelColumnSampleHeight := height;
      textureReaders := readers;
      lastFrameCalculation := 0;
      processing := false;
      started := false;
      acceptedFrames := [];
    }

    /** Validates the configuration once; bad input disables the sampler for good. */
    method Start()
      requires Valid() && !started
      modifies this`texture2D, this`started
      ensures Valid() && started
      ensures texture2D == if old(BadInput()) then None else old(texture2D)
    {
      if texture2D.None?
         || textureReaders.None?
         || |textureReaders.value| == 0
         || texture2D.value.height < yPixelColumnSamplePosition + pixelColumnSampleHeight
      {
        texture2D := None;
      }
      started := true;
    }

    /** Whether a post-render event at `frameCount` is accepted. */
    predicate Accepts(frameCount: int)
      reads this
    {
      !processing && texture2D.Some? && frameCount - lastFrameCalculation >= MinFrameInterval
    }

    /** The configured reader list, or no readers when there is none. */
    function Readers(): seq<TextureReader?>
    {
      if textureReaders.Some? then textureReaders.value else []
    }

    /** Handles one post-render event: drops it while a previous one is in
        progress, once the sampler is disabled, or within MinFrameInterval
        frames of the last accepted sample, and otherwise accepts it.
        Returns the column read and the ToggleChildren calls made. */
    method OnPostRender(frameCount: int, renderTarget: (int, int) -> real)
      returns (sample: Option<seq<real>>, sent: seq<Dispatch>)
      requires Valid() && started
      modifies this`lastFrameCalculation, this`processing, this`acceptedFrames
      modifies ReaderSet(Readers()), ChildArrays(Readers())
      ensures Valid()
      ensures processing == old(processing)
      ensures ReadersKept(Readers())
      ensures !old(Accepts(frameCount)) ==>
        sample == None && sent == [] &&
        lastFrameCalculation == old(lastFrameCalculation) && acceptedFrames == old(acceptedFrames) &&
        ChildrenKept(Readers())
      ensures old(Accepts(frameCount)) ==>
        lastFrameCalculation == frameCount &&
        acceptedFrames == old(acceptedFrames) + [frameCount] &&
        sample == Some(ReadColumn(renderTarget, xPixelColumnSamplePosition,
                                  yPixelColumnSamplePosition, pixelColumnSampleHeight)) &&
        sent == Dispatches(SlotsOf(old(Views(Readers()))), sample.value) &&
        (old(Separate(Readers())) ==> Cycled(Readers(), old(Views(Readers())), sample.value, |Readers()|))
    {
      if processing || texture2D.None? || frameCount - lastFrameCalculation < MinFrameInterval {
        return None, [];
      }
      sample, sent := Accept(frameCount, renderTarget);
    }

    /** The bookkeeping of an accepted event: the sampler becomes busy and
        the frame becomes the last accepted one. */
    method Record(frameCount: int)
      requires Valid() && started && Accepts(frameCount)
      modifies this`lastFrameCalculation, this`processing, this`acceptedFrames
      ensures Valid() && processing
      ensures lastFrameCalculation == frameCount
      ensures acceptedFrames == old(acceptedFrames) + [frameCount]
    {
      processing := true;
      lastFrameCalculation := frameCount;
      DebouncedSnoc(acceptedFrames, frameCount);
      acceptedFrames := acceptedFrames + [frameCount];
    }

    /** An accepted post-render event: marks the sampler busy, records the
        frame, reads the column, notifies the readers and marks it idle again. */
    method Accept(frameCount: int, renderTarget: (int, int) -> real)
      returns (sample: Option<seq<real>>, sent: seq<Dispatch>)
      requires Valid() && started && Accepts(frameCount)
      modifies this`lastFrameCalculation, this`processing, this`acceptedFrames
      modifies ReaderSet(Readers()), ChildArrays(Readers())
      ensures Valid()
      ensures processing == old(processing)
      ensures ReadersKept(Readers())
      ensures lastFrameCalculation == frameCount
      ensures acceptedFrames == old(acceptedFrames) + [frameCount]
      ensures sample == Some(ReadColumn(renderTarget, xPixelColumnSamplePosition,
                                        yPixelColumnSamplePosition, pixelColumnSampleHeight))
      ensures sent == Dispatches(SlotsOf(old(Views(Readers()))), sample.value)
      ensures old(Separate(Readers())) ==> Cycled(Readers(), old(Views(Readers())), sample.value, |Readers()|)
    {
      Record(frameCount);
      var textureData := ReadColumn(renderTarget, xPixelColumnSamplePosition,
                                    yPixelColumnSamplePosition, pixelColumnSampleHeight);

      assert Views(Readers()) == old(Views(Readers()));
      assert Separate(Readers()) == old(Separate(Readers()));
      sent := NotifyReaders(textureReaders.value, textureData);
      sample := Some(textureData);

      processing := false;
    }
  }

  /** The fan-out of one accepted sample: every reader that is not null and
      whose pixel index lies inside the column gets one ToggleChildren call
      with its pixel's intensity, in list order; the others are skipped.
      When no reader appears twice and no two share a child array, every
      reader ends with the children its one call gives it. */
  method NotifyReaders(readers: seq<TextureReader?>, textureData: seq<real>) returns (sent: seq<Dispatch>)
    modifies ReaderSet(readers), ChildArrays(readers)
    ensures ReadersKept(readers)
    ensures sent == Dispatches(SlotsOf(old(Views(readers))), textureData)
    ensures old(Separate(readers)) ==> Cycled(readers, old(Views(readers)), textureData, |readers|)
  {
    ghost var views := Views(readers);
    ghost var slots := SlotsOf(views);
    ghost var separate := Separate(readers);
    sent := [];
    for i := 0 to |readers|
      invariant ReadersKept(readers)
      invariant sent == Dispatches(slots[..i], textureData)
      invariant separate ==> Separate(readers) && Cycled(readers, views, textureData, i)
    {
      DispatchesSnoc(slots, textureData, i);
      var calls := NotifyReader(readers, i, textureData, views, separate);
      sent := sent + calls;
    }
    assert slots[..|readers|] == slots;
  }

  /** One step of the fan-out, for the entry at position `i`: a null entry
      and a reader whose pixel lies outside the column are skipped; any other
      reader gets one ToggleChildren call with its pixel's intensity. The
      step keeps `Cycled` for readers that share nothing. */
  method NotifyReader(readers: seq<TextureReader?>, i: nat, textureData: seq<real>,
                      ghost views: seq<ReaderView>, ghost separate: bool)
      returns (calls: seq<Dispatch>)
    requires i < |readers| == |views|
    requires readers[i] == null ==> views[i].slot.None?
    requires readers[i] != null ==> views[i].slot == Some(readers[i].samplePixelIndex)
    requires separate ==> Separate(readers) && Cycled(readers, views, textureData, i)
    requires separate && readers[i] != null ==> views[i] == View(readers[i])
    modifies if readers[i] == null then {} else {readers[i], readers[i].children}
    ensures ReadersKept(readers)
    ensures calls == if Eligible(views[i].slot, |textureData|)
                     then [Dispatch(i, textureData[views[i].slot.value])] else []
    ensures separate ==> Separate(readers) && Cycled(readers, views, textureData, i + 1)
  {
    var textureReader := readers[i];
    if textureReader == null {
      return [];
    }
    var samplePixelIndex := textureReader.GetSamplePixelIndex();
    if samplePixelIndex < 0 || samplePixelIndex >= |textureData| {
      return [];
    }
    var intensity := textureData[samplePixelIndex];
    var _ := textureReader.ToggleChildren(intensity);
    calls := [Dispatch(i, intensity)];
  }

  /** The non-null readers of a list. */
  function ReaderSet(rs: seq<TextureReader?>): set<TextureReader>
  {
    set r: TextureReader | r in rs
  }

  /** The child arrays of the non-null readers of a list. */
  function ChildArrays(rs: seq<TextureReader?>): set<array<bool>>
    reads rs
  {
    set r: TextureReader | r in rs :: r.children
  }

  /** Each non-null reader appears once in the list and no two readers share
      a child array. */
  predicate Separate(rs: seq<TextureReader?>)
    reads rs
  {
    forall i, j :: 0 <= i < j < |rs| && rs[i] != null && rs[j] != null ==>
      rs[i] != rs[j] && rs[i].children != rs[j].children
  }

  /** Every reader still has its configuration, its guard flag and its child array. */
  twostate predicate ReadersKept(rs: seq<TextureReader?>)
    reads rs
  {
    forall r: TextureReader | r in rs ::
      r.samplePixelIndex == old(r.samplePixelIndex) &&
      r.intensityRangeForEachChild == old(r.intensityRangeForEachChild) &&
      r.processing == old(r.processing) &&
      r.children == old(r.children) &&
      r.selfPos == old(r.selfPos)
  }

  /** Every reader's children are as they were. */
  twostate predicate ChildrenKept(rs: seq<TextureReader?>)
    reads rs, ChildArrays(rs)
  {
    forall r: TextureReader | r in rs :: r.children[..] == old(r.children[..])
  }

  /** What one cycle depends on of a reader entry, read before the cycle. */
  datatype ReaderView = ReaderView(slot: Option<int>, width: int, busy: bool, selfPos: int, children: seq<bool>)

  function View(r: TextureReader?): (v: ReaderView)
    reads r, if r == null then {} else {r.children}
  {
    if r == null then ReaderView(None, 0, false, 0, [])
    else ReaderView(Slot(r), r.intensityRangeForEachChild, r.processing, r.selfPos, r.children[..])
  }

  function Views(rs: seq<TextureReader?>): (vs: seq<ReaderView>)
    reads rs, ChildArrays(rs)
    ensures |vs| == |rs|
    ensures forall p :: 0 <= p < |rs| ==> vs[p] == View(rs[p])
  {
    if rs == [] then []
    else
      assert forall r: TextureReader | r in rs[..|rs| - 1] :: r in rs;
      Views(rs[..|rs| - 1]) + [View(rs[|rs| - 1])]
  }

  /** The slots of a list of views. */
  function SlotsOf(vs: seq<ReaderView>): (slots: seq<Option<int>>)
    ensures |slots| == |vs|
    ensures forall p :: 0 <= p < |vs| ==> slots[p] == vs[p].slot
  {
    seq(|vs|, p requires 0 <= p < |vs| => vs[p].slot)
  }

  /** The children a reader should have after one cycle of `data`, from its
      view before the cycle: toggled for its pixel when it gets a call and
      is not busy, and as they were otherwise. */
  function Expected(v: ReaderView, data: seq<real>): seq<bool>
  {
    if Eligible(v.slot, |data|) && !v.busy then
      Toggled(v.children, v.selfPos, ActivatedChild(data[v.slot.value], v.width))
    else
      v.children
  }

  /** The first `n` readers have had their cycle; the rest have their
      children as they were. */
  predicate Cycled(rs: seq<TextureReader?>, views: seq<ReaderView>, data: seq<real>, n: nat)
    requires |views| == |rs|
    reads rs, ChildArrays(rs)
  {
    forall p :: 0 <= p < |rs| && rs[p] != null ==>
      rs[p].children[..] == if p < n then Expected(views[p], data) else views[p].children
  }

  /** After Start has refused the configuration, no later post-render event
      samples or dispatches anything, whatever the frames, and no reader's
      children change. */
  method RenderAfterBadStart(s: TextureSampler, frames: seq<int>, renderTarget: (int, int) -> real)
      returns (samples: seq<Option<seq<real>>>, sent: seq<Dispatch>)
    requires s.Valid() && !s.started && s.BadInput()
    modifies s, ReaderSet(s.Readers()), ChildArrays(s.Readers())
    ensures s.texture2D.None?
    ensures |samples| == |frames| && forall k :: 0 <= k < |frames| ==> samples[k] == None
    ensures sent == []
    ensures ReadersKept(s.Readers()) && ChildrenKept(s.Readers())
  {
    s.Start();
    samples, sent := [], [];
    for k := 0 to |frames|
      invariant s.Valid() && s.started && s.texture2D.None?
      invariant |samples| == k && forall j :: 0 <= j < k ==> samples[j] == None
      invariant sent == []
      invariant ReadersKept(s.Readers()) && ChildrenKept(s.Readers())
    {
      var sample, calls := s.OnPostRender(frames[k], renderTarget);
      samples, sent := samples + [sample], sent + calls;
    }
  }
}
