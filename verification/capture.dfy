/**
 * One `record_until_silence` recording, seen from the audio callback. The
 * callback's shared variables (the chunk buffer and the two speech flags) form
 * a session value; each delivered block moves it by one pure step. What the
 * speech detector answers for a block is an input: `None`, or a dictionary
 * whose keys are among "start" and "end".
 */
module Capture {
  import opened Wrappers
  import opened Audio
  import opened Bytes

  datatype Boundary = Start | End

  /** The detector's answer: None, or the set of keys of the returned dictionary. */
  type VadResult = Option<set<Boundary>>

  /** `if result: if key in result` — an empty dictionary is falsy but contains no key either. */
  predicate Reports(result: VadResult, key: Boundary)
    ensures result == None ==> !Reports(result, key)
    ensures result == Some({}) ==> !Reports(result, key)
    ensures result.Some? && key in result.value ==> Reports(result, key)
    ensures Reports(result, key) ==> result == Some(result.value) && key in result.value
  {
    result.Some? && key in result.value
  }

  datatype Session = Session(buffer: seq<seq<Sample>>, speechStarted: bool, speechEnded: bool)

  /** One callback invocation: the block the stream delivered and what the detector said about its frame. */
  datatype Delivery = Delivery(block: seq<Sample>, result: VadResult)

  /** The state right after `_reset_vad` and the local initialisations. */
  function Fresh(): (s: Session)
    ensures |s.buffer| == 0 && !s.speechStarted && !s.speechEnded
  {
    Session([], false, false)
  }

  /**
   * The callback: once speech has ended it drains without touching anything;
   * otherwise it stores the block and raises whichever flags the detector's
   * answer names (both, if it names both).
   */
  function Step(s: Session, block: seq<Sample>, result: VadResult): (s': Session)
    ensures s.speechEnded ==> s' == s
    ensures !s.speechEnded ==> s'.buffer == s.buffer + [block]
    ensures !s.speechEnded ==> (s'.speechEnded <==> Reports(result, End))
    ensures !s.speechEnded ==> (s'.speechStarted <==> s.speechStarted || Reports(result, Start))
  {
    if s.speechEnded then s
    else
      Session(s.buffer + [block],
              s.speechStarted || Reports(result, Start),
              Reports(result, End))
  }

  /** The session after the stream delivered `ds`, in order. */
  function Run(s: Session, ds: seq<Delivery>): (r: Session)
    ensures |s.buffer| <= |r.buffer| <= |s.buffer| + |ds|
    decreases |ds|
  {
    if |ds| == 0 then s
    else
      var last := ds[|ds| - 1];
      Step(Run(s, ds[..|ds| - 1]), last.block, last.result)
  }

  /** The flags never go back from true to false, and an ended session never changes again. */
  lemma {:induction false} RunMonotone(s: Session, ds: seq<Delivery>)
    ensures s.speechStarted ==> Run(s, ds).speechStarted
    ensures s.speechEnded ==> Run(s, ds).speechEnded
    ensures s.speechEnded ==> Run(s, ds) == s
    ensures |s.buffer| <= |Run(s, ds).buffer| && Run(s, ds).buffer[..|s.buffer|] == s.buffer
    decreases |ds|
  {
    if |ds| > 0 {
      var init := Run(s, ds[..|ds| - 1]);
      RunMonotone(s, ds[..|ds| - 1]);
      var r := Run(s, ds);
      if !init.speechEnded {
        assert r.buffer[..|s.buffer|] == init.buffer[..|s.buffer|];
      }
    }
  }

  /** The position of the first delivery whose answer contains "end", or the number of deliveries if none does. */
  function FirstEnd(ds: seq<Delivery>): (k: nat)
    ensures k <= |ds|
    ensures k < |ds| ==> Reports(ds[k].result, End)
    decreases |ds|
  {
    if |ds| == 0 then 0
    else if Reports(ds[0].result, End) then 0
    else 1 + FirstEnd(ds[1..])
  }

  /** No answer before the one `FirstEnd` points at said "end". */
  lemma {:induction false} FirstEndIsFirst(ds: seq<Delivery>, i: nat)
    requires i < FirstEnd(ds)
    ensures !Reports(ds[i].result, End)
    decreases |ds|
  {
    if i > 0 {
      FirstEndIsFirst(ds[1..], i - 1);
    }
  }

  /** How many callbacks did work: up to and including the one that saw "end". */
  function Processed(ds: seq<Delivery>): (n: nat)
    ensures n <= |ds|
  {
    if FirstEnd(ds) < |ds| then FirstEnd(ds) + 1 else |ds|
  }

  /** The blocks of the deliveries, in order. */
  function Blocks(ds: seq<Delivery>): (bs: seq<seq<Sample>>)
    ensures |bs| == |ds|
    decreases |ds|
  {
    if |ds| == 0 then [] else Blocks(ds[..|ds| - 1]) + [ds[|ds| - 1].block]
  }

  /** Extending the deliveries moves the first "end" only when there was none before. */
  lemma {:induction false} FirstEndExtend(ds: seq<Delivery>, d: Delivery)
    ensures FirstEnd(ds + [d]) == if FirstEnd(ds) < |ds| then FirstEnd(ds)
                                  else if Reports(d.result, End) then |ds| else |ds| + 1
    decreases |ds|
  {
    if |ds| > 0 {
      var e := ds + [d];
      assert e[0] == ds[0];
      assert e[1..] == ds[1..] + [d];
      FirstEndExtend(ds[1..], d);
    }
  }

  /** Running one more delivery is one more callback step. */
  lemma RunExtend(s: Session, ds: seq<Delivery>, d: Delivery)
    ensures Run(s, ds + [d]) == Step(Run(s, ds), d.block, d.result)
  {
    assert (ds + [d])[..|ds|] == ds;
  }

  /** A recording from a fresh session has ended exactly when some answer said "end". */
  lemma {:induction false} RecordingEnded(ds: seq<Delivery>)
    ensures Run(Fresh(), ds).speechEnded <==> FirstEnd(ds) < |ds|
    decreases |ds|
  {
    if |ds| > 0 {
      var init := ds[..|ds| - 1];
      var d := ds[|ds| - 1];
      assert init + [d] == ds;
      RecordingEnded(init);
      FirstEndExtend(init, d);
      RunExtend(Fresh(), init, d);
    }
  }

  /** Some answer among the first n said "start". */
  ghost predicate StartAmong(ds: seq<Delivery>, n: nat)
    requires n <= |ds|
  {
    exists i :: 0 <= i < n && Reports(ds[i].result, Start)
  }

  /** Appending a delivery does not change what the first n answers said. */
  lemma StartAmongExtend(ds: seq<Delivery>, d: Delivery, n: nat)
    requires n <= |ds|
    ensures StartAmong(ds + [d], n) <==> StartAmong(ds, n)
  {
    if StartAmong(ds + [d], n) {
      var i :| 0 <= i < n && Reports((ds + [d])[i].result, Start);
      assert ds[i] == (ds + [d])[i];
    }
    if StartAmong(ds, n) {
      var i :| 0 <= i < n && Reports(ds[i].result, Start);
      assert ds[i] == (ds + [d])[i];
    }
  }

  /** Counting the appended delivery adds exactly its own answer. */
  lemma StartAmongLast(ds: seq<Delivery>, d: Delivery)
    ensures StartAmong(ds + [d], |ds| + 1) <==> StartAmong(ds, |ds|) || Reports(d.result, Start)
  {
    StartAmongExtend(ds, d, |ds|);
    if Reports(d.result, Start) {
      assert Reports((ds + [d])[|ds|].result, Start);
    }
    if StartAmong(ds + [d], |ds| + 1) && !StartAmong(ds + [d], |ds|) {
      var i :| 0 <= i < |ds| + 1 && Reports((ds + [d])[i].result, Start);
      assert i == |ds|;
    }
  }

  /** A recording from a fresh session has started exactly when one of the processed answers said "start". */
  lemma {:induction false} RecordingStarted(ds: seq<Delivery>)
    ensures Run(Fresh(), ds).speechStarted <==> StartAmong(ds, Processed(ds))
    decreases |ds|
  {
    if |ds| > 0 {
      var init := ds[..|ds| - 1];
      var d := ds[|ds| - 1];
      assert init + [d] == ds;
      RecordingStarted(init);
      RecordingEnded(init);
      FirstEndExtend(init, d);
      RunExtend(Fresh(), init, d);
      if FirstEnd(init) < |init| {
        StartAmongExtend(init, d, Processed(init));
      } else {
        StartAmongLast(init, d);
      }
    }
  }

  /**
   * The buffer of a recording from a fresh session holds exactly the blocks of
   * the deliveries up to and including the first one whose answer said "end".
   */
  lemma {:induction false} RecordingBuffer(ds: seq<Delivery>)
    ensures Run(Fresh(), ds).buffer == Blocks(ds[..Processed(ds)])
    decreases |ds|
  {
    if |ds| > 0 {
      var init := ds[..|ds| - 1];
      var d := ds[|ds| - 1];
      assert init + [d] == ds;
      var before := Run(Fresh(), init);
      RecordingBuffer(init);
      RecordingEnded(init);
      FirstEndExtend(init, d);
      RunExtend(Fresh(), init, d);
      if FirstEnd(init) < |init| {
        assert before.speechEnded;
        assert Processed(ds) == Processed(init);
        assert ds[..Processed(ds)] == init[..Processed(init)];
      } else {
        assert !before.speechEnded;
        assert Processed(ds) == |ds| && Processed(init) == |init|;
        assert ds[..|ds|] == ds && init[..|init|] == init;
      }
    }
  }

  /** Stops as soon as speech has ended: the buffer length counts the callbacks up to that one. */
  lemma BufferCountsCallbacks(ds: seq<Delivery>)
    requires FirstEnd(ds) < |ds|
    ensures |Run(Fresh(), ds).buffer| == FirstEnd(ds) + 1
    ensures Run(Fresh(), ds).speechEnded
  {
    RecordingBuffer(ds);
    RecordingEnded(ds);
  }

  /** The concatenation of the stored blocks, `np.concatenate(audio_chunks)`. */
  function Concat(bs: seq<seq<Sample>>): (a: seq<Sample>)
    ensures forall i :: 0 <= i < |bs| ==> |bs[i]| <= |a|
    ensures |bs| > 0 ==> a[|a| - |bs[|bs| - 1]|..] == bs[|bs| - 1]
    decreases |bs|
  {
    if |bs| == 0 then [] else Concat(bs[..|bs| - 1]) + bs[|bs| - 1]
  }

  /** A single block concatenates to itself. */
  lemma ConcatSingle(b: seq<Sample>)
    ensures Concat([b]) == b
  {
    assert [b][..0] == [];
  }

  /** Concatenation distributes over joining two lists of blocks: the blocks are joined in order. */
  lemma {:induction false} ConcatAppend(xs: seq<seq<Sample>>, ys: seq<seq<Sample>>)
    ensures Concat(xs + ys) == Concat(xs) + Concat(ys)
    decreases |ys|
  {
    if |ys| == 0 {
      assert xs + ys == xs;
    } else {
      var init := ys[..|ys| - 1];
      var last := ys[|ys| - 1];
      var both := xs + ys;
      assert both[..|both| - 1] == xs + init;
      assert both[|both| - 1] == last;
      ConcatAppend(xs, init);
      calc {
        Concat(both);
        Concat(xs + init) + last;
        (Concat(xs) + Concat(init)) + last;
        Concat(xs) + (Concat(init) + last);
        Concat(xs) + Concat(ys);
      }
    }
  }

  /** Blocks that all have length c concatenate to |bs| * c samples. */
  lemma {:induction false} ConcatLength(bs: seq<seq<Sample>>, c: nat)
    requires forall i :: 0 <= i < |bs| ==> |bs[i]| == c
    ensures |Concat(bs)| == |bs| * c
    decreases |bs|
  {
    if |bs| > 0 {
      ConcatLength(bs[..|bs| - 1], c);
    }
  }

  /** The bytes `record_until_silence` returns: empty for an empty buffer, else the buffer resampled to 16 kHz as PCM. */
  function RecordOutput(f: Resampler, deviceRate: nat, s: Session): (out: seq<Byte>)
    requires deviceRate > 0
    ensures |s.buffer| == 0 ==> out == []
    ensures |s.buffer| > 0 ==> FromBytes(out) == Resample(f, Concat(s.buffer), deviceRate, VadSampleRate)
    ensures |s.buffer| > 0 && deviceRate == VadSampleRate ==> FromBytes(out) == Concat(s.buffer)
    ensures |s.buffer| > 0 ==> |out| == 2 * |Resample(f, Concat(s.buffer), deviceRate, VadSampleRate)|
    ensures |s.buffer| > 0 && deviceRate != VadSampleRate ==>
              |out| == 2 * ResampleLength(|Concat(s.buffer)|, deviceRate, VadSampleRate)
  {
    if |s.buffer| > 0 then
      var audio16k := Resample(f, Concat(s.buffer), deviceRate, VadSampleRate);
      PcmRoundTrip(audio16k);
      ToBytes(audio16k)
    else []
  }

  /**
   * When every stored block has the size the stream was opened with and the
   * device runs at 32 Hz or faster, the output is empty exactly when no block
   * was stored.
   */
  lemma {:induction false} OutputEmptyIffNothingStored(f: Resampler, deviceRate: nat, s: Session)
    requires deviceRate >= 32
    requires forall i :: 0 <= i < |s.buffer| ==> |s.buffer[i]| == ChunkSize(deviceRate)
    ensures RecordOutput(f, deviceRate, s) == [] <==> |s.buffer| == 0
  {
    if |s.buffer| > 0 {
      var c := ChunkSize(deviceRate);
      ConcatLength(s.buffer, c);
      ChunkSizePositive(deviceRate);
      var total := |Concat(s.buffer)|;
      assert total >= c by {
        assert total == |s.buffer| * c;
      }
      if deviceRate == VadSampleRate {
        assert |RecordOutput(f, deviceRate, s)| == 2 * total;
      } else {
        ResampledBlockNonEmpty(deviceRate);
        var n1 := ResampleLength(c, deviceRate, VadSampleRate);
        var n := ResampleLength(total, deviceRate, VadSampleRate);
        assert n1 * deviceRate <= c * VadSampleRate <= total * VadSampleRate < (n + 1) * deviceRate;
        MulLtCancel(n1, n + 1, deviceRate);
      }
    }
  }

  /** `is_speech`: true exactly when the detector returned a dictionary holding "start". */
  function IsSpeech(result: VadResult): (b: bool)
    ensures b <==> Reports(result, Start)
  {
    result != None && Start in result.value
  }

  /** `is_speech` and the recording callback agree on what counts as the start of speech. */
  lemma IsSpeechAgreesWithCallback(s: Session, block: seq<Sample>, result: VadResult)
    requires !s.speechEnded && !s.speechStarted
    ensures Step(s, block, result).speechStarted == IsSpeech(result)
  {
  }
}
