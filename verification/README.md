# walkie-ai: conversation memory, agent status and microphone pipeline in Dafny

This project models the three sequential pieces of the walkie-ai voice agent
and proves properties of them:

- **Conversation memory** (`AgentMemory`): a bounded, ordered log of
  interactions plus a key-to-value context map. Appending trims the log to its
  most recent `max_history` entries; `get_history(n)` is the Python slice
  `history[-n:]`; `search_history` keeps, in order, the interactions whose
  user input or agent response contains the query case-insensitively.
  Python's slice rules are reproduced, not excluded: `history[-0:]` is the
  whole log and a negative `n` drops a prefix, so a limit of 0 never trims
  and a negative limit drops the oldest entries instead.
- **Agent status** (`AgentState`): a five-valued status with `set_status`,
  `set_error`, `clear_error`, `is_busy` and `to_dict`.
- **Microphone pipeline** (`microphone.py`): the resample length rule, the
  device block size `int(512 * rate / 16000)`, the fit-to-512-samples step,
  the audio callback of `record_until_silence` as a pure step over
  (buffer, speech started, speech ended), the final byte output and the
  `is_speech` test. The FFT resampler is a function parameter constrained
  only by the number of samples it returns; the speech detector's answer for
  each block is an input (`None` or a set of keys among "start" and "end").

One observation the proofs make precise: the comment above the block-size
computation says the block is made slightly larger so that enough samples
remain after resampling, but the computation truncates. A block therefore
resamples to at most 512 samples, and to exactly 512 only when 125 divides the
device rate (`Audio.ResampledBlockIsFullFrameIff`). At 44100 Hz a block of 1411
samples gives 511 (`Audio.BlockAt44100IsOneShort`), and the fit step only ever
pads callback blocks, never truncates them (`Audio.CallbackBlockOnlyPads`).

`int(...)` truncates, so resampled lengths and the block size are floors.

Modules: `Wrappers` (Option), `Bytes` (raw bytes), `Text` (ASCII lower-casing and the substring
test), `Slices` (Python's `xs[-n:]`), `Memory`, `State`, `Audio` (sample
arithmetic and 16-bit PCM bytes) and `Capture` (one recording).

## Model

| member | source | states |
|---|---|---|
| Slices.SliceStart | src/agent/memory.py:47 | a slice start is made an index the Python way: negative starts count from the end and clamp at 0, large starts clamp at the length |
| Slices.LastN | src/agent/memory.py:60 | `xs[-n:]`: for n >= 1 the last min(n, len) entries, the whole list for n = 0, the list without its first -n entries for negative n; always a suffix |
| Slices.LastNIsSuffix | src/agent/memory.py:58-60 | for n >= 1 the slice is the suffix of length min(n, len), and the whole list once n reaches the length |
| Memory.NewDefault | src/agent/memory.py:13-21 | `AgentMemory()` has the default limit of 100, an empty log and an empty context |
| Memory.New | src/agent/memory.py:13-21 | a new memory has the given limit, an empty log and an empty context |
| Memory.MakeInteraction | src/agent/memory.py:36-41 | the record carries the given input, response and timestamp; missing metadata becomes an empty map |
| Memory.Trim | src/agent/memory.py:45-47 | with a positive limit the log is at most that long and, when trimmed, is exactly the last `max_history` entries; a limit of 0 keeps everything; the result is always a suffix |
| Memory.AddInteraction | src/agent/memory.py:36-47 | the new log is a suffix of old log plus new record, in order; the bound holds for a positive limit; below the limit nothing is dropped; context and limit unchanged |
| Memory.GetHistory | src/agent/memory.py:58-60 | None gives the whole log; n >= 1 gives the last min(n, len) entries; n = 0 gives everything; negative n drops the first -n entries |
| Memory.GetLastInteraction | src/agent/memory.py:68 | None exactly when the log is empty, otherwise the newest entry |
| Memory.SetContext | src/agent/memory.py:77 | the key maps to the value, other keys keep their values, the log is unchanged |
| Memory.GetContext | src/agent/memory.py:89 | the stored value for a present key, the supplied default for a missing one |
| Memory.ClearContext | src/agent/memory.py:91-93 | the context becomes empty and the log is kept |
| Memory.Clear | src/agent/memory.py:95-98 | both log and context become empty; the limit is kept |
| Memory.GetSummary | src/agent/memory.py:125-131 | count equals the log length, keys equal the context keys, oldest/newest timestamps are None exactly for an empty log and otherwise those of the first and last entries |
| Memory.SearchHistory | src/agent/memory.py:109-117 | the loop returns exactly the order-preserving filter of the log by the case-insensitive substring test |
| Memory.MatchingSound | src/agent/memory.py:112-115 | every search result is an entry of the log that matches the query |
| Memory.MatchingComplete | src/agent/memory.py:112-115 | every matching entry of the log is among the results |
| Memory.MatchingIsSubsequence | src/agent/memory.py:110-117 | the results are a subsequence of the log, so log order is kept |
| Memory.EmptyQueryMatchesAll | src/agent/memory.py:113-114 | an empty query returns the whole log |
| Memory.SearchIgnoresQueryCase | src/agent/memory.py:109 | for ASCII case mapping, upper- or lower-casing the query does not change the results |
| Memory.AddThenGetLast | src/agent/memory.py:36-47 | for a limit >= 0 the record just added is the last interaction and its timestamp is the summary's newest |
| Memory.AddToFullDropsOldest | src/agent/memory.py:43-47 | adding to a log already at its positive limit drops exactly the oldest entry and appends the new one |
| Memory.ZeroLimitNeverTrims | src/agent/memory.py:46-47 | with `max_history` 0 the log only grows, because `history[-0:]` is the whole log |
| Memory.NegativeLimitDropsPrefix | src/agent/memory.py:46-47 | with a negative limit -d, adding drops the d oldest entries of the extended log |
| Memory.ContextReadBack | src/agent/memory.py:77-98 | set-then-get returns the value, other keys are unaffected, after `clear_context` or `clear` every lookup yields the default |
| Memory.AddKeepsContext | src/agent/memory.py:43-47 | adding an interaction leaves every context lookup unchanged |
| Memory.FiveIntoThree | test/test_agent.py:25-34 | five additions to a memory of limit 3 keep three entries, the oldest being "Input 2" |
| Text.Lower | src/agent/memory.py:109 | lower-casing keeps the length and folds each character (ASCII letters only) |
| Text.Contains | src/agent/memory.py:113-114 | the scan returns true exactly when the needle occurs in the haystack |
| State.Initial | src/agent/state.py:25-30 | a fresh state is IDLE with no task, no error, no audio output and no metadata |
| State.SetStatus | src/agent/state.py:39-41 | the status becomes the argument; the task is replaced only by a non-empty task and kept otherwise; nothing else changes |
| State.SetError | src/agent/state.py:49-50 | status ERROR and the given error; the task and the rest are kept |
| State.ClearError | src/agent/state.py:54-56 | the error is cleared; ERROR becomes IDLE and every other status is kept |
| State.ToDict | src/agent/state.py:80-86 | the status appears as its value string and `has_audio_output` holds exactly when audio output is present |
| State.StatusValue | src/agent/state.py:14-18 | each status has a non-empty, lower-case value string |
| State.IsBusy | src/agent/state.py:58-64 | busy exactly when the status value is "processing" or "speaking" |
| State.StatusValueInjective | src/agent/state.py:14-18 | the five value strings are lower case and distinct |
| State.ToDictDeterminesStatus | src/agent/state.py:80-81 | two states with the same dictionary status have the same status |
| State.ClearErrorIdempotent | src/agent/state.py:54-56 | clearing twice equals clearing once, and never leaves ERROR |
| State.ErrorRoundTrip | src/agent/state.py:49-56 | set-error then clear-error gives IDLE, no error, and the same task |
| State.BusyAfterSetStatus | src/agent/state.py:64 | busy exactly after setting PROCESSING or SPEAKING; never busy initially or after an error |
| Audio.ResampleLength | src/interface/asr/microphone.py:57 | the requested length is the floor of len * target / orig |
| Audio.Resample | src/interface/asr/microphone.py:53-58 | identity for equal rates, otherwise the floor-scaled number of samples; empty input gives empty output (where scipy would raise, see Left out) |
| Audio.ChunkSize | src/interface/asr/microphone.py:100 | the block size is the floor of 512 * rate / 16000 |
| Audio.ChunkSizePositive | src/interface/asr/microphone.py:100 | the block size is positive exactly for rates of 32 Hz or more |
| Audio.ChunkSizeExamples | src/interface/asr/microphone.py:100 | 1536 at 48000 Hz, 1411 at 44100 Hz, 512 at 16000 Hz |
| Audio.ResampledBlockAtMostFrame | src/interface/asr/microphone.py:98-100 | a block resampled to 16 kHz has at most 512 samples |
| Audio.FullFrameNeedsMultipleOf125 | src/interface/asr/microphone.py:98-100 | a block that resamples to 512 samples comes from a rate divisible by 125 |
| Audio.MultipleOf125GivesFullFrame | src/interface/asr/microphone.py:98-100 | at a rate divisible by 125 a block resamples to exactly 512 samples |
| Audio.ResampledBlockIsFullFrameIff | src/interface/asr/microphone.py:98-100 | a block resamples to a whole frame exactly when 125 divides the rate |
| Audio.ResampledBlockNonEmpty | src/interface/asr/microphone.py:100 | at 32 Hz or more a block resamples to at least one sample |
| Audio.BlockAt44100IsOneShort | src/interface/asr/microphone.py:98-100 | at 44100 Hz a block resamples to 511 samples, not the larger block the comment promises |
| Audio.FitToFrame | src/interface/asr/microphone.py:123-127 | exactly 512 samples: the input's samples first, silence after them |
| Audio.ResampleToVadChunk | src/interface/asr/microphone.py:115-129 | exactly 512 samples; fitted from the input itself at 16 kHz, from the resampled input otherwise |
| Audio.CallbackBlockOnlyPads | src/interface/asr/microphone.py:118-127 | for a block of the stream's size the frame is the whole resampled block followed by zeros: the truncation branch is never taken |
| Audio.ToBytes | src/interface/asr/microphone.py:182 | two bytes per sample |
| Audio.PcmRoundTrip | src/interface/asr/microphone.py:182 | decoding the little-endian bytes gives the samples back |
| Audio.PcmRoundTripBytes | src/interface/asr/microphone.py:182 | every even-length byte string is the encoding of its decoding |
| Capture.Fresh | src/interface/asr/microphone.py:140-143 | a recording starts with an empty buffer and both flags false |
| Capture.Reports | src/interface/asr/microphone.py:159-163 | a key is reported only by a present answer holding it: None and an empty (falsy) dictionary report nothing, a dictionary holding the key reports it |
| Capture.Step | src/interface/asr/microphone.py:145-163 | after speech ended the callback changes nothing; otherwise it appends exactly the block, sets ended exactly on an "end" answer and started on a "start" answer (both at once possible) |
| Capture.Run | src/interface/asr/microphone.py:145-163 | the callbacks applied in delivery order; each adds at most one block, so the buffer grows by at most the number of deliveries |
| Capture.RunMonotone | src/interface/asr/microphone.py:145-163 | over any deliveries the flags never fall back, an ended session never changes, and the buffer only grows at the end |
| Capture.RecordingBuffer | src/interface/asr/microphone.py:140-152 | from a fresh session the buffer is exactly the blocks of the deliveries up to and including the first whose answer said "end" (all of them if none did) |
| Capture.RecordingEnded | src/interface/asr/microphone.py:142-163 | from a fresh session speech has ended exactly when some answer said "end" |
| Capture.RecordingStarted | src/interface/asr/microphone.py:141-163 | from a fresh session speech has started exactly when one of the processed answers said "start"; answers after the "end" are never looked at |
| Capture.BufferCountsCallbacks | src/interface/asr/microphone.py:147-152 | when speech ends, the buffer holds one block per callback up to the ending one |
| Capture.Concat | src/interface/asr/microphone.py:180 | every stored block fits in the concatenation, and the last block forms its end |
| Capture.ConcatSingle | src/interface/asr/microphone.py:180 | one block concatenates to itself |
| Capture.ConcatAppend | src/interface/asr/microphone.py:180 | concatenating two lists of blocks joined is concatenating each and joining the results, so the blocks appear whole and in order |
| Capture.RecordOutput | src/interface/asr/microphone.py:179-183 | empty bytes for an empty buffer; otherwise the bytes decode to the concatenated blocks resampled to 16 kHz (the blocks themselves at 16 kHz), two bytes per resampled sample |
| Capture.OutputEmptyIffNothingStored | src/interface/asr/microphone.py:179-183 | with blocks of the stream's size at 32 Hz or more, the output is empty exactly when no block was stored |
| Capture.IsSpeech | src/interface/asr/microphone.py:220-221 | true exactly when the answer is a dictionary holding "start" |
| Capture.IsSpeechAgreesWithCallback | src/interface/asr/microphone.py:159-161 | on a session with no speech yet, the callback's started flag equals `is_speech` of the same answer |

## Left out

- The `sounddevice` stream, the polling loop with its wall-clock timeout and `sd.sleep`, and the callback thread: hardware I/O, timing and concurrency. A recording is a sequence of deliveries of any length, so cutting it off at a timeout is any prefix.
- `record_seconds`: its length is a float duration times the rate, and it is `sd.rec`/`sd.wait` hardware capture.
- `list_audio_devices` and `print_audio_devices`: device queries and console output.
- The sample values of `scipy.signal.resample` and the float32 casts: floating-point numerics. Only the output length and the identity case are modelled. The callback path does not normalise: `_resample_to_vad_chunk` hands the detector int16-scale values cast to float32, without the division by 32768 that `is_speech` applies. Because the detector's answer is an input here, the model cannot tell the two paths apart.
- `is_speech`'s int16-to-float normalisation: floating point. `Capture.IsSpeech` models only the result test.
- Silero `VADIterator`, `load_silero_vad` and `_reset_vad`: an external model whose answer is an input here.
- Audio.ResampleLength: computed as an exact integer floor; Python computes `len * target / orig` in floating point first, which differs only for values beyond double precision.
- Audio.ChunkSize: the same exact-floor reading of `int(512 * rate / 16000)`; device rates are taken as whole numbers, as `int(dev_info["default_samplerate"])` makes them.
- Audio.Resample: requires a positive original rate when the rates differ, since Python would divide by zero. When the rates differ and the input is empty, or the target length is 0, `scipy.signal.resample` raises `ValueError`; the model returns the empty sequence instead. This cannot happen for blocks of the stream's size at 32 Hz or more (`Audio.ResampledBlockNonEmpty`).
- Audio.ResampleToVadChunk: requires a positive device rate for the same reason.
- Audio.ToBytes: fixes little-endian byte order; `tobytes()` uses the machine's native order.
- Memory.SearchIgnoresQueryCase: holds for ASCII case mapping only; under Python's full Unicode mapping upper-casing can change a query's lower-case form (`'ß'.upper()` is `'SS'`, which lower-cases to `'ss'`), and then the results differ.
- Text.Lower: folds ASCII letters only; Python's `str.lower()` follows the full Unicode case mapping.
- Memory.GetSummary: the context keys are a set; Python returns them as a list in insertion order.
- Timestamps (`datetime.now()`) are a `now` argument of `Memory.AddInteraction`; the uptime of `AgentState` and its `started_at` field are not modelled.
- Aliasing: Python returns the stored dictionaries themselves from `get_history` and `search_history`; the model is value-based, so no operation can change the memory it reads.
- `get_history` not modifying the log is immediate in this value-based model and carries no separate lemma.
- Agent orchestration (`core.py`), the RPC server (`mcp_server.py`), `main.py`, the speech-to-text and text-to-speech front-ends and providers, and the database package.
