# mp3_to_wav, modelled in Dafny

mp3_to_wav decodes an MP3 file into PCM samples in one pass. It then cuts
the samples into time ranges and writes each range as a WAV file. The
repository has two front ends that share this pipeline:

- `main.c` writes 16-bit PCM. It reads three comma-separated lists: output
  names, start times and end times. It writes `<name>.wav` for each slice,
  one thread per slice.
- `mp3_wav.c` writes 32-bit float. It reads one output prefix and two lists
  of times. It checks each range first, then writes
  `<prefix>_slice_<i>.wav`.

`wav.c` builds the 44-byte RIFF/WAVE header and writes the header followed
by the samples.

The model has these modules:

- `Bytes`: fixed-width unsigned integers with explicit wrap-around, and
  little-endian encoding with its round trip.
- `FileSystem`: a `Disk` class for files. `fopen` can fail for a path, and
  `fwrite` can write short when the disk is full.
- `Wav`: the header as a value, its byte layout, a parser that inverts it,
  and the writers as methods on a `Disk`.
- `Mp3Decode`: the shared frame-decode loop.
  - `Step`/`Run`/`Trace` specify the loop. `DecodeFrames` is the loop
    itself over an array, proved equal to `Run`.
  - The MP3 frame decoder is an oracle `Decoder`. `DecoderOk` states the
    bounds it keeps for a frame that yields samples: 1 or 2 channels, a
    positive rate, at most 2304 interleaved samples
    (`MINIMP3_MAX_SAMPLES_PER_FRAME`), and as many samples written as it
    reports. It says nothing about the frame's byte length. A length of 0,
    or one past the end of the input, stops the loop at its own check.
- `Text`: `strtok_r` on ",", a lenient `atof`, `%d` rendering, and
  `snprintf`/`strncpy` truncation into a fixed-size buffer.
- `Slicing`: turns a time range into sample offsets and defines the range
  check. `WriteSlice` writes one slice, and `SliceAll` is the effect of a
  whole slice list on the disk. It also holds the as-written models behind
  the findings below.
- `Mp3Wav` models `mp3_wav.c`, and `MainProgram` models `main.c`.

Samples are integers. Only their bytes are written, so a sample's value
only matters through `PayloadBytes`. Times are `real` numbers, and
`(uint64_t)(t * sr)` is `Floor`.

## Model

| member | source | states |
|---|---|---|
| Bytes.U16 | wav.c:32-36 | a store into a `uint16_t` header field keeps values in range and otherwise differs from the stored value by a multiple of 2^16 |
| Bytes.U32 | wav.c:45 | the `uint32_t` conversion is the identity for values in range; otherwise the result differs from its argument by a multiple of 2^32 |
| Bytes.U64 | main.c:202-204 | `uint64_t` arithmetic is the identity for values in range; otherwise the result differs by a multiple of 2^64 |
| Bytes.LittleEndian | wav.c:7-21 | a value written little-endian into a field of `width` bytes takes exactly `width` bytes |
| Bytes.LittleEndianRoundTrip | wav.c:7-21 | reading back the `width` little-endian bytes of `x` gives `x mod 256^width` |
| Bytes.FromLittleEndianRoundTrip | wav.c:7-21 | re-encoding the value of any byte string gives the same bytes |
| Wav.CDiv | wav.c:36 | C `int` division by a positive divisor truncates toward zero: the remainder `a - b*q` lies in `[0, b)` for `a >= 0` and in `(-b, 0]` for `a < 0` |
| Wav.CDivUnique | wav.c:36 | any quotient whose remainder has the dividend's sign and is smaller than the divisor is the one `CDiv` gives |
| Wav.CDivNegate | wav.c:36 | negating the dividend negates the quotient, which floor division would not do |
| Wav.DataLength | wav.c:45 | `data_length = sample_count * channels * width` in `uint32_t`: congruent to the product modulo 2^32, exact when the product is below 2^32, and 0 for no channels |
| Wav.WavFile | wav.c:42-73 | the file is 44 header bytes plus `data_length` bytes |
| Wav.InitWavHeader | wav.c:25-40 | chunk size is 16 and `file_length = data_length + 36`; tag, channels, rate and bits are stored wrapped to the field widths; `block_align = channels*(bits/8)` and `bytes_per_sec = rate*block_align` |
| Wav.HeaderBytes | wav.c:6-22 | the packed header is exactly 44 bytes |
| Wav.ChunkHeaderFields | wav.c:8-9 | a chunk header holds its four-byte tag, then its size little-endian, and that size reads back unchanged |
| Wav.ChunkHeaderOf | wav.c:8-9 | eight bytes that hold a tag and then a size are exactly the chunk header of that tag and size |
| Wav.FmtBodyFields | wav.c:13-18 | the six format fields sit little-endian at offsets 0, 2, 4, 8, 12 and 14 of the 16-byte "fmt " body |
| Wav.FmtBodyOf | wav.c:13-18 | sixteen bytes whose six fields a header holds are exactly that header's "fmt " body |
| Wav.ParseHeader | wav.c:6-22 | any header it accepts has "RIFF" at 0, "WAVE" at 8, "fmt " at 12 and "data" at 36 |
| Wav.HeaderLayout | wav.c:7-21 | every field sits little-endian at its fixed offset: file length at 4, tag at 20, channels at 22, rate at 24, byte rate at 28, block align at 32, bits at 34, data length at 40, with the four tags |
| Wav.ParseHeaderBytes | wav.c:6-22 | parsing the serialised header gives back the same header |
| Wav.HeaderBytesOfParse | wav.c:6-22 | any 44 bytes the parser accepts are the serialisation of the header it returns |
| Wav.PayloadBytes | wav.c:61 | the payload is `width` bytes per sample |
| Wav.PayloadSampleAt | wav.c:61 | sample `k` occupies bytes `k*w .. (k+1)*w`, little-endian, in its 16- or 32-bit representation |
| Wav.WavFileLayout | wav.c:42-73 | the file is the 44-byte header followed by the first `data_length` payload bytes, and its header parses back |
| Wav.ParseHeaderPrefix | wav.c:6-22 | only the first 44 bytes of a file decide what its header parses as |
| Wav.BlockAlignExact | wav.c:36 | for 0 < channels < 2^16/width, `block_align` is exactly `channels * width` with no wrap |
| Wav.FloatStereoExample | wav.c:75-105 | float, 2 channels, 44100 Hz and 100 frames give an 844-byte file with block align 8 and byte rate 352800 |
| Wav.WriteWav | wav.c:42-105 | returns 0 exactly when the file opened and both writes were complete; the disk then holds the header followed by the payload; an open failure leaves the disk alone and returns -1, and a short write keeps the bytes written and returns -1 |
| Wav.WritePcmWav | wav.c:42-73 | `write_pcm_wav`: `WriteWav` with tag 1, 16 bits and `data_length = count*channels*2` mod 2^32 |
| Wav.WriteFloatWav | wav.c:75-105 | `write_float_wav`: `WriteWav` with tag 3, 32 bits and `data_length = count*channels*4` mod 2^32 |
| FileSystem.WriteAll | wav.c:49-65 | a path that cannot be opened leaves the disk alone and fails; otherwise the file is truncated and then receives as many bytes as fit, succeeding only when all of them did |
| FileSystem.Disk.Open | wav.c:49-53 | `fopen(..., "wb")` succeeds exactly for writable paths and empties the file |
| FileSystem.Disk.Write | wav.c:55-65 | `fwrite` appends `min(|data|, free)` bytes and reports how many |
| Mp3Decode.MaxPcmSamples | mp3_wav.c:94 | `max_pcm_samples = buf_size * 2304 / 128` is exactly 18 samples per input byte |
| Mp3Decode.PcmBufferBytes | mp3_wav.c:95 | `pcm_bsiz` is 36 sample widths per input byte |
| Mp3Decode.Splice | mp3_wav.c:122-123 | the copy replaces exactly `dst[at .. at+|src|)` and keeps the rest |
| Mp3Decode.Step | mp3_wav.c:107-138 | an iteration that goes on keeps the loop invariant (cursor within the buffer, `decoded*2 <= max_pcm`, channels at most 2, the buffer keeps its size) and strictly advances the cursor |
| Mp3Decode.Run | mp3_wav.c:104-138 | the loop terminates in a state that keeps the invariant, where the next iteration halts, with cursor and sample count never going down |
| Mp3Decode.RunCounts | main.c:161-191 | the bytes consumed are the lengths of the accepted frames, and `decoded_samples` is the sum of the productive frames' sample counts |
| Mp3Decode.RunKeepsLastFormat | main.c:173-191 | channels and rate are those of the last frame with samples; with no such frame they and the sample count keep their starting values |
| Mp3Decode.RunLayout | main.c:174-180 | with every productive frame having `c` channels, the buffer from `decoded*c` on holds their samples back to back, and nothing outside that range changes |
| Mp3Decode.RunLayoutProductive | main.c:174-180 | the same layout from a state whose next frame yields samples |
| Mp3Decode.CopyInto | main.c:180 | `memcpy` into the array changes exactly the target range |
| Mp3Decode.DecodeFrames | mp3_wav.c:104-138 | the array loop ends with the count, channels, rate and buffer contents of `Run`, and the reason it stopped is the reason `Step` halts there |
| Text.FirstDelimiter | mp3_wav.c:184-185 | the first "," of the string, or its length when there is none |
| Text.Strtok | mp3_wav.c:184-185 | no token exactly when the rest is all delimiters; a token is non-empty, comma-free, and the scan moves forward |
| Text.Tokens | mp3_wav.c:184-198 | there are never more tokens than characters, and there are none exactly when the string is all delimiters |
| Text.ScannedNext | mp3_wav.c:197-198 | each later `strtok_r` call returns the next token of the list in order |
| Text.TokensWellFormed | main.c:291-293 | every token is non-empty and holds no "," |
| Text.JoinFields | main.c:291-293 | the reference split into fields loses nothing: joining them with "," restores the string |
| Text.TokensAreNonEmptyFields | main.c:307-309 | the tokens are exactly the non-empty fields in order, so leading, trailing and repeated commas yield no token |
| Text.ParsePairs | mp3_wav.c:189-193 | one pair per position of two token lists |
| Text.ParsePairsAt | mp3_wav.c:189-193 | entry `i` is `(atof(start_i), atof(end_i))` |
| Text.AtofSkipsBlank | mp3_wav.c:189-190 | a leading blank does not change what `atof` reads |
| Text.AtofNegative | mp3_wav.c:189-190 | a `-` in front of a number negates it |
| Text.AtofPositive | mp3_wav.c:189-190 | a `+` in front of a number leaves it unchanged |
| Text.AtofOfNonNumber | mp3_wav.c:189-190 | text that does not start with a number, after blanks and a sign, reads as 0 |
| Text.NatToString | mp3_wav.c:165 | `%d` gives a non-empty string of decimal digits |
| Text.NatToStringValue | mp3_wav.c:165 | the rendered digits have the number's value |
| Text.AtofOfNatToString | mp3_wav.c:165 | parsing a rendered number gives the number back |
| Text.Truncate | mp3_wav.c:165 | a buffer of `size` bytes keeps a prefix of at most `size-1` characters: all of the text when it fits, exactly `size-1` otherwise |
| Slicing.Zeros | mp3_wav.c:96 | `n` zero samples |
| Slicing.AllocZeroed | mp3_wav.c:96 | a fresh array of `n` samples, all zero |
| Slicing.DecodeAll | mp3_wav.c:94-138 | the decoded audio is well formed (channels at most 2, `decoded*2 <= |pcm|`, no samples exactly when no channels, rate not negative) and lives in a buffer of `2*max_pcm_samples` |
| Slicing.RangeCheckAgrees | mp3_wav.c:146-147 | for a positive rate the check as written passes exactly the ranges with `0 <= start < end <= decoded/sr` |
| Slicing.FrameIndex | mp3_wav.c:152-153 | `(uint64_t)(t*sr)` for a non-negative time is the floor of `t*sr` |
| Slicing.SliceBounds | mp3_wav.c:152-154 | the start offset never exceeds the end offset |
| Slicing.FrameIndexOrder | mp3_wav.c:152-153 | for a range that passes the check, the start frame is at most the end frame, which is at most the decoded count |
| Slicing.SliceInBounds | main.c:203-219 | `0 <= start_sample <= end_sample <= decoded*channels`; both are multiples of `channels`; `(slice_samples/channels)*channels == slice_samples` |
| Slicing.ValidSliceHasChannels | mp3_wav.c:146-147 | a range that passes the check implies decoded samples and 1 or 2 channels |
| Slicing.CastU64 | mp3_wav.c:152 | the float-to-`uint64_t` cast is defined exactly for `-1 < x < 2^64`, and truncates toward zero |
| Slicing.InvertedRangeWraps | main.c:203-205 | start 2 s and end 1 s at 44100 Hz stereo gives `slice_samples = 2^64 - 88200`, so the allocation that follows asks for close to 2^64 bytes |
| Slicing.OverlongRangeUnchecked | main.c:203-215 | a range past the decoded audio still gives a non-empty copy length, though the check rejects it |
| Slicing.UncheckedAgreesWhenValid | main.c:203-205 | for a range that passes the check, the unchecked `uint64_t` computation gives exactly the checked offsets and length |
| Slicing.FloorOfCast | mp3_wav.c:152 | the cast of `x` is `n` when `n <= x < n+1` |
| Slicing.FrameCountAsWritten | mp3_wav.c:167 | `slice_samples / channels` is defined exactly for non-zero channels and is the floor quotient |
| Slicing.SilentInputDividesByZero | mp3_wav.c:146-167 | when no frame yields samples, the range 0 s to 1 s passes the check as written, its length is 0, and the frame count divides by zero |
| Slicing.ValidSliceHasFrameCount | mp3_wav.c:146-167 | with the corrected check, no range passes on empty audio and every passing range has a defined frame count |
| Slicing.FrameCountFits | mp3_wav.c:167 | the frame count handed to the writer never asks it for more bytes than the slice holds |
| Slicing.SliceFileContents | mp3_wav.c:152-167 | a valid slice's file is 44 header bytes plus `width` bytes per copied sample; its header records the audio's channels and rate and `data_length`, and its payload is exactly `pcm[start_sample .. end_sample)` |
| Slicing.SliceFileLayout | mp3_wav.c:162-167 | the file of a slice of whole frames is 44 header bytes plus `width` bytes per sample; its header records the channels, the rate and the payload's byte length, and the payload is all of the slice |
| Slicing.ValidSliceBounds | mp3_wav.c:146-154 | for a range that passes the check, the offsets lie within the decoded samples and the buffer, the audio has 1 or 2 channels, and the slice spans whole frames |
| Slicing.SliceAllFrame | mp3_wav.c:145-170 | slicing only shrinks free space and never removes a file; a file not named by any slice keeps its contents |
| Slicing.SliceEffect | mp3_wav.c:145-170 | one slice only uses up free space, never removes a file, changes no file but its own, and changes nothing when its range fails the check |
| Slicing.SliceAllSplit | mp3_wav.c:145-170 | running the slice list is running its first `i` slices, then the rest from the disk they leave |
| Slicing.SliceAllFinal | mp3_wav.c:145-170 | a slice whose name no later slice reuses, whose range passes the check, whose buffer can be allocated, whose file can be created and that fits the space left by the earlier slices, ends the run holding exactly its WAV file |
| Slicing.SliceAllSkipsInvalid | mp3_wav.c:145-150 | a list where no range passes the check writes nothing |
| Slicing.SliceEffectWrites | mp3_wav.c:152-167 | a valid slice with a successful allocation, a writable file and enough room leaves exactly its WAV file under its name |
| Slicing.CopyOut | mp3_wav.c:156-162 | the fresh slice buffer holds `src[lo..hi)` |
| Slicing.WriteSlice | mp3_wav.c:146-169 | one slice: skipped when the range fails the check or the allocation fails; otherwise its WAV file is written |
| Slicing.WriteFrames | mp3_wav.c:162-167 | copying `pcm[lo..hi)` out and writing it with `(hi-lo)/channels` frames leaves the disk as writing that slice's WAV file would |
| Mp3Wav.GetLengths | mp3_wav.c:178-202 | `count = min(#start tokens, #end tokens, 100)`; `lengths[i] = (atof(start_i), atof(end_i))` in order; entries past `count` are untouched |
| Mp3Wav.SliceFileName | mp3_wav.c:164-165 | always under 512 characters, and exactly `output_fn + "_slice_" + n + ".wav"` when that fits |
| Mp3Wav.SliceFileNamesDistinct | mp3_wav.c:164-165 | two slices whose names fit never write the same file |
| Mp3Wav.SliceOutput | mp3_wav.c:145-170 | while every numbered name fits 512 bytes, file `<prefix>_slice_<i+1>.wav` ends the run holding exactly slice `i`'s WAV file whenever that slice passes the check, can be allocated and written, and fits |
| Mp3Wav.SliceMp3ToWav | mp3_wav.c:73-175 | an unreadable input or a failed buffer allocation returns an all-zero info and writes nothing; otherwise the info is the last productive frame's rate and channels, and the disk is the slice list applied in order to slice files numbered from 1 |
| MainProgram.ReadMp3 | main.c:130-194 | an unreadable input or a failed allocation gives zero samples, zero channels and a null buffer; otherwise a fresh buffer holding exactly the decode loop's result |
| MainProgram.StrcpyRow | main.c:303 | the unchecked copy stays inside the 512-byte row exactly when the token is under 512 characters |
| MainProgram.LongNameOverruns | main.c:303 | a 512-character name overruns its row |
| MainProgram.StoreRow | main.c:235-236 | the stored row is a prefix of the token under 512 characters, equal to the token whenever the copy fits |
| MainProgram.GetLengths | main.c:283-313 | `count = min(#start, #end, #name tokens, 400)`; entry `i` is `(atof(start_i), atof(end_i))` with row `i` from name `i`; entries past `count` are untouched |
| MainProgram.ThreadFileName | main.c:216-217 | under 780 characters, and exactly `name + ".wav"` for a name that fits its row |
| MainProgram.AsyncMatchesSequential | main.c:226-281 | for rows under 512 characters, the threaded and sequential writers write every slice to the same file, `name_i + ".wav"` |
| MainProgram.ZeroAudioDividesByZero | main.c:202-219 | for audio with rate and channels 0, every unchecked range gives `slice_samples = 0`, and `slice_samples / channels` divides by zero |
| MainProgram.WriteWaveThread | main.c:196-224 | one slice with the range check restored: the disk changes as `WriteSlice` of the 16-bit audio to `name + ".wav"` |
| MainProgram.PackArgs | main.c:232-237 | argument block `k` holds range `k` and row `k` cut to 511 characters |
| MainProgram.AsyncSlicedWriteWave | main.c:226-248 | the disk is the slice list applied in order, each slice to its packed row plus ".wav" |
| MainProgram.SlicedWriteWave | main.c:252-281 | the disk is the slice list applied in order, each slice to its row plus ".wav" |

## Left out

- File input (`read_file`, `readFile`) is an `Option<seq<byte>>` parameter, with `None` for a failed open, stat, allocation or read.
- `read_wav` and its libsndfile calls are not part of this model.
- `detect_audio_type` is not part of this model. `main` is not modelled either: the argument check, `strdup`, the choice of reader and the timing printout are command-line glue.
- The MP3 decoder (`mp3dec_init`, `mp3dec_decode_frame` and their static state) is the `Decoder` oracle, with the bounds `DecoderOk` states.
- `malloc` success is an oracle `canAlloc` on the byte count. A fresh PCM buffer holds zeros where C would leave indeterminate bytes.
- Mp3Decode.RunLayout: it describes the buffer only when every productive frame has the same channel count. Each frame is copied to `decoded * channels` with the current frame's count, so a change of count leaves a gap that no frame writes. For example, a mono frame of 1152 samples then a stereo frame leaves `pcm[1152..2304)` unwritten, and a slice over it reads zeros in the model but indeterminate values in C.
- Bytes.LittleEndian: the header and the samples are written as little-endian bytes. The C code `fwrite`s the `wav_header` struct and the sample array in host byte order (wav.c:55, 61, 88, 94), so the model matches only a little-endian host. It also takes the struct to have no padding.
- FileSystem.Disk.Write: `fwrite` is modelled as unbuffered, so a write that does not fit fails at once. With stdio buffering, C can report a complete write and fail only at the unchecked `fclose` (wav.c:71, 103). In that case the C writers return 0 where `Wav.WriteWav` returns -1.
- FileSystem.Disk.Open: truncating an existing file with `fopen(..., "wb")` does not return its bytes to the free space. The disk is modelled as a quota of fresh bytes.
- Threads: `async_sliced_write_wave` runs the slice bodies one after another in list order. Concurrent interleaving and `pthread_exit` are not modelled. The thread-creation failure path is not modelled either; it breaks out and then joins slots never created.
- Floating point: times and `t * sr` are exact reals, and `(uint64_t)` is `Floor`. `float` rounding and the `float` conversion of `decoded_samples` are not modelled.
- Text.Atof: accepts blanks, a sign, digits and an optional fraction. Exponents, hexadecimal, `inf` and `nan` forms read only up to their first non-decimal character.
- Strings are taken to contain no NUL character. A C string would end at the first NUL.
- Wav.InitWavHeader: it builds the header as a value. It does not fill a caller-owned struct field by field, and nothing reads the struct half-filled.
- Wav.WriteWav: it requires the sample buffer to hold at least `data_length` bytes. The C writer would read past the buffer otherwise, which is undefined behaviour.
- Mp3Decode.MaxPcmSamples: `max_pcm_samples` and `pcm_bsiz` are exact integers. `buf_size * 2304` wraps in a 64-bit `size_t` for inputs above 2^64 / 2304 bytes (about 2^52.8), and that wrap is not modelled.
- Channels are not defaulted to 1 when no frame yields samples. The code never does this, and the model follows the code.
- The "AUTO" name and the benchmark scripts are not modelled. Neither `get_lengths` treats "AUTO" specially, so it is an ordinary name.
- Slicing.WriteSlice: the `continue` on a failed slice allocation is modelled, and so is the unchecked return code of the writer. The printed diagnostics are not modelled.

## Findings

| source | as written | input that shows it | evidently intended | confidence | as-written member | corrected member |
|---|---|---|---|---|---|---|
| main.c:203-205 | `write_wave_thread` and `sliced_write_wave` do not check the range (the check is commented out at main.c:256-260). `end_sample - start_sample` wraps in `uint64_t`, which makes the `malloc` that follows fail, and a range past the audio copies beyond the decoded samples | start 2.0, end 1.0 at 44100 Hz stereo gives 2^64 - 88200 samples | skip the slice unless it passes the mp3_wav.c check plus `sr > 0`, that is `sr > 0 && 0 <= start < end <= decoded/sr` | not executed | Slicing.InvertedRangeWraps | MainProgram.WriteWaveThread |
| main.c:219 | with no range check, audio with rate and channels 0 still reaches `slice_samples / audio->channels`, an integer division by zero. `read_mp3` returns such audio after a failed read or allocation (main.c:142-145, 151-155), `main` leaves it for an unrecognised input type (main.c:345-357), and the decode loop leaves it when no frame yields samples. The division is reached when `malloc(0)` returns a non-null pointer | an unreadable input file and any range | skip every slice unless it passes the mp3_wav.c check plus `sr > 0` | not executed | MainProgram.ZeroAudioDividesByZero | MainProgram.WriteWaveThread |
| mp3_wav.c:146-147 | when no frame yields samples, `sr` and `channels` stay 0. The check `end > decoded/sr` compares with NaN or infinity and passes, and `slice_samples / INFO.channels` at mp3_wav.c:167 divides by zero | an input with no decodable frame and the range 0 to 1 | reject every range unless `sr > 0` | not executed | Slicing.SilentInputDividesByZero | Slicing.ValidSliceHasFrameCount |
| main.c:303 | `strcpy` copies a name token into a 512-byte row with no length check | a name of 512 characters | store at most 511 characters, as the later `strncpy` at main.c:235-236 does | not executed | MainProgram.LongNameOverruns | MainProgram.StoreRow |
