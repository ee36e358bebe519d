# Supernova texture sampling, modelled in Dafny

Supernova drives scene objects from a video. Two components do this:

- A `TextureSampler` stands behind a camera. Once at least ten frames have passed since its last sample, it reads a one-pixel-wide column of the render target after rendering. It hands each registered `TextureReader` the grayscale intensity of the pixel that reader asks for.
- A `TextureReader` turns one intensity into a percentage, and the percentage into a bucket index. It then switches its children so that only the child at that index is active. The reader object itself, which the engine lists among its own children, is left alone.

The project has two modules:

- `Reader` (`reader.dfy`) models `TextureReader`:
  - the intensity-to-bucket mapping as pure functions over `real`;
  - the child walk as a method over an `array<bool>` of "active" flags;
  - the owning object's position in that enumeration, `selfPos`.
- `Sampler` (`sampler.dfy`) models `TextureSampler`:
  - a class with the fields the source updates: the texture reference, which doubles as the "enabled" flag, the re-entrancy flag and the frame of the last accepted sample;
  - `Start`, which validates the configuration once;
  - `OnPostRender`, which gates each event, reads the column and fans out to the readers in list order, calling `ToggleChildren` on each eligible one.

The engine's primitives become parameters:

- the frame counter is an `int`;
- the render target is a function from pixel coordinates to grayscale intensity;
- a reader's children are an array of flags.

Every `ToggleChildren` call is recorded, as a `Toggle` for a reader and as a `Dispatch` for the sampler. This makes "exactly one call per eligible reader, in order" and "SetActive only where needed" statable.

Two ghost fields of the sampler record the history:

- `started`: whether `Start` has run;
- `acceptedFrames`: the frames of all accepted samples.

`Valid()` keeps two invariants:

- a started and enabled sampler has a good configuration;
- any two accepted frames are at least `MinFrameInterval` = 10 apart.

The children a reader ends with are stated through a snapshot (`ReaderView`) of every reader taken before the fan-out. `Cycled` says that each reader handled so far has exactly the children its one call gives it. This outcome is proved when no reader appears twice in the list and no two readers share a child array (`Separate`).

One point of the bucket rule is easy to misread. With buckets of 10 percent, full white selects index 10 (100 / 10), not 9, so a reader with children 0..9 activates none of them at full intensity. An index 10 exists only for a percentage of exactly 100. The model follows the code, and `ActivatedChildTenPercent` records the values.

## Model

| member | source | states |
|---|---|---|
| Reader.Clamp01 | Assets/Supernova/TextureReader.cs:58-59 | the clamped intensity lies in [0, 1], is the intensity itself inside that range, 0 below it and 1 above it |
| Reader.Truncate | Assets/Supernova/TextureReader.cs:60 | the `(int)` cast truncates toward zero: the result is within one below a non-negative argument and within one above a negative one |
| Reader.Percentage | Assets/Supernova/TextureReader.cs:58-60 | the percentage is between 0 and 100, equals the floor of the clamped intensity times 100, is 0 for intensity at most 0 and 100 for intensity at least 1 |
| Reader.ActivatedChild | Assets/Supernova/TextureReader.cs:54-61 | the index is -1 exactly when the bucket width is outside 1..100; for a valid width it lies in [0, 100 / width] |
| Reader.ActivatedChildBucket | Assets/Supernova/TextureReader.cs:56-61 | for a valid width the selected bucket holds the percentage: k * width <= percentage < (k + 1) * width |
| Reader.ActivatedChildMonotone | Assets/Supernova/TextureReader.cs:58-61 | for a fixed valid width a brighter pixel never selects a lower index |
| Reader.ActivatedChildEnds | Assets/Supernova/TextureReader.cs:58-61 | intensity at most 0 selects index 0 and intensity at least 1 selects 100 / width |
| Reader.ActivatedChildTenPercent | Assets/Supernova/TextureReader.cs:56-61 | with 10-percent buckets, intensity 1.0 selects 10, 0.995 selects 9 and 0.1 selects 1 |
| Reader.Toggles | Assets/Supernova/TextureReader.cs:67-82 | every SetActive call of the walk over the first n children names a child among them that is not the owner and whose flag differs from the desired one, sets it to "position == activated", and the calls come in increasing position order |
| Reader.TogglesExactly | Assets/Supernova/TextureReader.cs:73-81 | a child gets a SetActive call if and only if it is not the owner and its flag differs from the desired one |
| Reader.ApplyTogglesPrefix | Assets/Supernova/TextureReader.cs:67-82 | after the calls for the first n children, each such child other than the owner is active exactly at the activated index, and every other flag is as before |
| Reader.ToggledAt | Assets/Supernova/TextureReader.cs:66-82 | after a full walk the owner keeps its flag and every other child is active exactly when its position is the activated index |
| Reader.ToggledOutOfRange | Assets/Supernova/TextureReader.cs:54-82 | an activated index of -1, or one beyond the last child, leaves every child but the owner inactive |
| Reader.TogglesNoneNeeded | Assets/Supernova/TextureReader.cs:75-78 | when every child is already in its desired state or is the owner, the walk makes no SetActive call |
| Reader.ToggledIdempotent | Assets/Supernova/TextureReader.cs:73-81 | a second walk with the same activated index makes no SetActive call and leaves the flags as the first walk left them |
| Reader.TextureReader.constructor | Assets/Supernova/TextureReader.cs:17 | a reader without a configured pixel index asks for pixel 5 and starts idle |
| Reader.TextureReader.Configured | Assets/Supernova/TextureReader.cs:16-28 | a reader asks for its configured pixel index and starts idle |
| Reader.TextureReader.GetSamplePixelIndex | Assets/Supernova/TextureReader.cs:33-36 | the configured pixel index is returned unchanged |
| Reader.TextureReader.ToggleChildren | Assets/Supernova/TextureReader.cs:41-86 | a call made while one is in progress changes nothing and makes no SetActive call; otherwise the calls made are exactly `Toggles` for the activated index, the children end as `Toggled`, and the guard flag is idle again on exit |
| Sampler.Slot | Assets/Supernova/TextureSampler.cs:99-105 | a list entry has no slot exactly when it is null; otherwise its slot is the reader's pixel index |
| Sampler.Dispatches | Assets/Supernova/TextureSampler.cs:95-114 | each ToggleChildren call of a cycle goes to a reader that is present and whose pixel index lies inside the column, carries that pixel's intensity, and the calls come in list order with no reader twice |
| Sampler.DispatchesExactly | Assets/Supernova/TextureSampler.cs:98-113 | a reader gets a call if and only if it is present and its pixel index lies inside the column, whatever the other entries are |
| Sampler.DebouncedApart | Assets/Supernova/TextureSampler.cs:72-79 | in a debounced history, the j-th and i-th accepted frames are at least (j - i) * 10 apart |
| Sampler.DebouncedSnoc | Assets/Supernova/TextureSampler.cs:72-79 | accepting a frame at least 10 after the last accepted one keeps the history debounced |
| Sampler.ReadColumn | Assets/Supernova/TextureSampler.cs:83-91 | the sample column has exactly `pixelColumnSampleHeight` entries, the i-th being the render target's pixel at (x, y + i) |
| Sampler.TextureSampler.constructor | Assets/Supernova/TextureSampler.cs:16-46 | a sampler starts idle, unstarted, with last frame 0 and its configuration as given |
| Sampler.TextureSampler.Start | Assets/Supernova/TextureSampler.cs:51-63 | a missing texture, a missing or empty reader list, or a column that does not fit the texture's height disables the sampler; otherwise the texture is kept |
| Sampler.TextureSampler.OnPostRender | Assets/Supernova/TextureSampler.cs:68-118 | an event while processing, while disabled or fewer than 10 frames after the last accepted one changes no sampler state, samples and dispatches nothing and leaves every reader's children alone; an accepted event records its frame, returns the column read and the dispatches of that column, and ends idle |
| Sampler.TextureSampler.Record | Assets/Supernova/TextureSampler.cs:77-79 | an accepted event makes the sampler busy and its frame the last accepted one, keeping accepted frames at least 10 apart |
| Sampler.TextureSampler.Accept | Assets/Supernova/TextureSampler.cs:77-117 | an accepted event records its frame, reads the column, makes exactly the dispatches of that column to the readers as they were, keeps every reader's configuration, and ends idle |
| Sampler.NotifyReaders | Assets/Supernova/TextureSampler.cs:95-114 | the fan-out makes exactly `Dispatches` for the readers' pixel indices, keeps every reader's configuration and, for readers that share nothing, leaves each with the children its one call gives it |
| Sampler.NotifyReader | Assets/Supernova/TextureSampler.cs:97-113 | one entry of the fan-out: a null entry or one asking for a missing pixel is skipped; any other reader gets one call with its pixel's intensity |
| Sampler.RenderAfterBadStart | Assets/Supernova/TextureSampler.cs:54-75 | after Start refuses the configuration, any later sequence of events samples nothing, dispatches nothing and changes no reader |

## Left out

- Engine primitives are parameters or omitted. `Time.frameCount` is the `frameCount` argument. `ReadPixels`, `GetPixels` and `Color.grayscale` become one function from coordinates to intensity. `Debug.LogWarning` is dropped.
- Floating point arithmetic is not modelled. Intensities are `real`, so float rounding of `intensity * 100` at bucket boundaries is not captured.
- Reader.TextureReader.ToggleChildren: the children come from `GetComponentsInChildren`. The model fixes them as the reader's array of flags. A child set that changes between calls is not modelled.
- Reader.TextureReader.ToggleChildren: the owner is found by comparing instance ids. The model reduces this to one position, `selfPos`, which the walk skips.
- Sampler.NotifyReaders: the children each reader ends with are stated only when the reader list holds no reader twice and no two readers share a child array. When readers do alias, later calls can see earlier ones' effects; the model then keeps only the dispatch log and the readers' configuration.
- Sampler.TextureSampler.OnPostRender: the same condition applies to its statement about the readers' children on an accepted event.
- Sampler.TextureSampler.OnPostRender: it requires `Start` to have run, as the engine calls `Start` before any render callback. The null-reference failure of an unstarted sampler without a reader list is not modelled.
- The frame counter and `_lastFrameCalculation` are unbounded integers. The 32-bit wrap-around of their difference after about two billion frames is not modelled.
- Reentrancy is not modelled as concurrency. The two `_processing` flags are plain fields. The guard branches are modelled, but nothing in a sequential run re-enters.
- The texture is only its height. `pixelColumnSampleHeight` is a natural number, so a negative height, which the engine rejects at `ReadPixels`, is not modelled.
- Assets/Supernova/TextureRenderProTV_AVPro.cs is not part of this model. It only copies a material's texture into the render target.
