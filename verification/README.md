# TurboBadger renderer-batcher adapter for Urho3D

This project models the adapter that lets the TurboBadger UI toolkit run inside
the Urho3D engine (`UTBRendererBatcher` and `UTBBitmap`). The adapter is itself
an engine UI element. It has three jobs:

- **Drawing.** It receives the toolkit's quads (`AddQuadInternal`) and stores
  them in the toolkit's pending batch. When the bitmap changes, that batch is
  flushed into the adapter's own float vertex data and batch list
  (`RenderBatch`). Once per frame it hands that data to the engine
  (`GetBatches`).
- **Input.** It translates the engine's mouse, key and text events into calls
  on the toolkit's root widget. A key table (`CreateKeyMap`, `FindTBKey`)
  translates the keys. Qualifier masks are stored in the same table, shifted
  by `QAL_VAL` = 0x60000000.
- **Lifetime.** It exists as a single static instance (`Create`, `Destroy`).

Modules:

- `Common`: an option type, the signed 32-bit range and two's-complement wrap.
- `KeyMap`: the key table and its lookup. The engine's and the toolkit's key
  constants are left abstract as a `Codes` record. `Valid` states what the
  table relies on:
  - the special keys are distinct codes below `QAL_VAL`;
  - the four qualifier masks are distinct, positive and below 2^29;
  - the toolkit's special-key codes are not "undefined".
- `Toolkit`: rectangles, vertices, bitmaps and the toolkit's pending batch.
- `Quad`: the six vertices of one quad, in clockwise winding.
- `VertexBuffer`:
  - the engine's six-float vertex layout, with a decoder as its inverse;
  - `RenderBatch`;
  - `GetBatches`, with reference functions saying what it collects.
- `Renderer`: `SetClipRect`, the toolkit's `Flush` and `AddQuadInternal`.
- `Utf8`: the key forwarded for text input, as written and as corrected (see
  Findings).
- `Input`: the seven event handlers, and runs of events.
- `Singleton`: `Create` and `Destroy`.

## Model

| member | source | states |
|---|---|---|
| KeyMap.QualifierKey | Source/Samples/54_TurboBadger/UTBRendererBatcher.cpp:54 | a qualifier mask of up to 29 bits is stored at mask + 0x60000000 with no 32-bit wrap, so it lands at or above `QAL_VAL` |
| KeyMap.InsertAll | Source/Samples/54_TurboBadger/UTBRendererBatcher.cpp:208-243 | inserting pairs one by one defines exactly the old keys plus the inserted ones; keys not inserted keep their values |
| KeyMap.InsertAllFinds | Source/Samples/54_TurboBadger/UTBRendererBatcher.cpp:208-243 | when no key is inserted twice, every inserted key is found with the value inserted for it |
| KeyMap.CreateKeyMap | Source/Samples/54_TurboBadger/UTBRendererBatcher.cpp:208-243 | the table built from empty has exactly the 26 special keys and the 4 shifted qualifier masks as keys |
| KeyMap.FindTBKey | Source/Samples/54_TurboBadger/UTBRendererBatcher.cpp:591-602 | a key in the table yields its stored code; any other key yields 0 ("undefined") |
| KeyMap.EntriesDistinct | Source/Samples/54_TurboBadger/UTBRendererBatcher.cpp:211-242 | no two of the 30 insertions use the same key, so no insertion overwrites another |
| KeyMap.LowEntryIsSpecial | Source/Samples/54_TurboBadger/UTBRendererBatcher.cpp:238-242 | every table key below `QAL_VAL` is one of the special engine keys |
| KeyMap.HighEntryIsQualifier | Source/Samples/54_TurboBadger/UTBRendererBatcher.cpp:238-242 | every table key at or above `QAL_VAL` is a shifted qualifier mask |
| KeyMap.SpecialKeysTranslate | Source/Samples/54_TurboBadger/UTBRendererBatcher.cpp:211-236 | each special engine key is found as its toolkit counterpart, e.g. Return as Enter |
| KeyMap.QualifiersTranslate | Source/Samples/54_TurboBadger/UTBRendererBatcher.cpp:239-242 | Shift, Ctrl, Alt and Any, shifted by `QAL_VAL`, are found as Shift, Ctrl, Alt and Super |
| KeyMap.SpecialLookupIff | Source/Samples/54_TurboBadger/UTBRendererBatcher.cpp:591-602 | an ordinary key code (below `QAL_VAL`) translates to something other than "undefined" exactly when it is a special key |
| KeyMap.QualifierLookup | Source/Samples/54_TurboBadger/UTBRendererBatcher.cpp:238-242 | a single qualifier mask gives its modifier; every other mask, combinations and 0 included, gives "undefined" |
| KeyMap.QualifierRangeDisjoint | Source/Samples/54_TurboBadger/UTBRendererBatcher.cpp:238 | shifted qualifier keys never collide with a special key |
| Toolkit.NewBitmap | Source/Samples/54_TurboBadger/UTBRendererBatcher.h:56-57 | a bitmap reports through `Width()` and `Height()` the size it was built with |
| Quad.QuadVertices | Source/Samples/54_TurboBadger/UTBRendererBatcher.cpp:369-401 | a quad is six vertices, each on a corner of the destination, with that corner's texture coordinates and the quad's colour |
| Quad.QuadTrianglesClockwise | Source/Samples/54_TurboBadger/UTBRendererBatcher.cpp:369-401 | both triangles wind the same way (clockwise on screen) and each covers half the rectangle |
| Quad.QuadCoversCorners | Source/Samples/54_TurboBadger/UTBRendererBatcher.cpp:371-401 | the six vertices are exactly the four corners. The first triangle is bottom-left, top-left, bottom-right and the second top-left, top-right, bottom-right, so both share the top-left to bottom-right diagonal |
| VertexBuffer.Layout | Source/Samples/54_TurboBadger/UTBRendererBatcher.cpp:278-286 | every vertex takes exactly `UI_VERTEX_SIZE` = 6 slots |
| VertexBuffer.LayoutAppend | Source/Samples/54_TurboBadger/UTBRendererBatcher.cpp:278-286 | laying out two runs of vertices one after the other lays out their concatenation |
| VertexBuffer.LayoutBlock | Source/Samples/54_TurboBadger/UTBRendererBatcher.cpp:280-285 | vertex i occupies slots 6i to 6i+5: x, y, depth 0, colour bits, u, v |
| VertexBuffer.DecodeLayout | Source/Samples/54_TurboBadger/UTBRendererBatcher.cpp:280-285 | the written slots read back as the same vertices, so nothing is lost |
| VertexBuffer.LayoutDecode | Source/Samples/54_TurboBadger/UTBRendererBatcher.cpp:280-285 | converse: slots that read back as vertices are exactly those vertices' layout |
| VertexBuffer.Scissor | Source/Samples/54_TurboBadger/UTBRendererBatcher.cpp:267 | the scissor's left and top edges are the clip origin; its right and bottom edges are origin plus size |
| VertexBuffer.TextureOf | Source/Samples/54_TurboBadger/UTBRendererBatcher.cpp:264-266 | the batch samples the bitmap's texture, or no texture for a null bitmap |
| VertexBuffer.Submitted | Source/Samples/54_TurboBadger/UTBRendererBatcher.cpp:268-289 | submitting keeps the old data and batches as a prefix. The new data holds the batch's vertices. One batch is appended covering exactly the new slots, with the bitmap's texture and the clip's scissor |
| VertexBuffer.RenderBatch | Source/Samples/54_TurboBadger/UTBRendererBatcher.cpp:260-291 | a null batch changes nothing; otherwise the loop's writes produce exactly the submitted buffer |
| VertexBuffer.SubmittedKeepsTiled | Source/Samples/54_TurboBadger/UTBRendererBatcher.cpp:270-276 | the ranges stay back to back with no gap or overlap, and still cover the data |
| VertexBuffer.Rebased | Source/Samples/54_TurboBadger/UTBRendererBatcher.cpp:301-304 | a collected batch keeps its length, texture and scissor and starts at the caller's current size |
| VertexBuffer.GatheredTiled | Source/Samples/54_TurboBadger/UTBRendererBatcher.cpp:297-312 | for tiled ranges, copying each range in turn reproduces the adapter's whole data |
| VertexBuffer.GetBatches | Source/Samples/54_TurboBadger/UTBRendererBatcher.cpp:295-317 | the caller's data grows by the ranges' contents in order, and its batch list by the rebased batches. The adapter's own buffers end empty |
| VertexBuffer.GetBatchesFaithful | Source/Samples/54_TurboBadger/UTBRendererBatcher.cpp:300-311 | the caller's earlier batches and data are kept; batch i's new range lies in the caller's data and holds exactly its original contents |
| VertexBuffer.GetBatchesCopiesAll | Source/Samples/54_TurboBadger/UTBRendererBatcher.cpp:297-312 | with tiled ranges, the caller's data grows by exactly the adapter's data |
| Renderer.SetClipRect | Source/Samples/54_TurboBadger/UTBRendererBatcher.h:110-113 | the clip rectangle is replaced and nothing else changes |
| Renderer.Flush | Source/Samples/54_TurboBadger/UTBRendererBatcher.cpp:342 | an empty pending batch is left alone. Otherwise the batch is submitted, emptied and given the next batch id. Bitmap, fragment, clip, coordinates and stamps are unchanged |
| Renderer.AddQuad | Source/Samples/54_TurboBadger/UTBRendererBatcher.cpp:337-406 | flushes exactly when the bitmap differs, and submits only a non-empty batch. The batch takes the bitmap, fragment and current clip. Stored coordinates change only when a bitmap is given. Six vertices are appended, and the fragment records the id of the batch they land in |
| Renderer.AddQuadStampsCurrent | Source/Samples/54_TurboBadger/UTBRendererBatcher.cpp:403-405 | a quad drawn with a fragment marks that fragment as in the pending batch; no stamp runs ahead of the batch id |
| Renderer.FlushRetiresStamps | Source/Samples/54_TurboBadger/UTBRendererBatcher.cpp:340-344 | after a non-empty batch is submitted, no fragment counts as in the new pending batch; flushing an empty batch changes no fragment's status |
| Renderer.AddQuadAppendsSix | Source/Samples/54_TurboBadger/UTBRendererBatcher.cpp:340-401 | flushed or not, what has been drawn grows by exactly the quad's six vertices |
| Renderer.AddQuadKeepsTiled | Source/Samples/54_TurboBadger/UTBRendererBatcher.cpp:340-344 | adding quads keeps the submitted ranges tiling the adapter's data |
| Renderer.ClipReachesBatch | Source/Samples/54_TurboBadger/UTBRendererBatcher.h:110-113 | the rectangle set as clip is carried by the next quad's batch, and becomes its scissor when submitted |
| Renderer.NullBitmapReusesUv | Source/Samples/54_TurboBadger/UTBRendererBatcher.cpp:352-367 | with no bitmap, the new vertices use the texture coordinates of the previous textured quad |
| Renderer.SameBitmapNoFlush | Source/Samples/54_TurboBadger/UTBRendererBatcher.cpp:340-344 | two quads on the same bitmap share one batch and submit nothing |
| Utf8.Encode | Source/Samples/54_TurboBadger/UTBRendererBatcher.cpp:582 | text arrives as UTF-8 (section 3 of RFC 3629); a character takes one byte exactly when it is ASCII |
| Utf8.DecodeEncode | Source/Samples/54_TurboBadger/UTBRendererBatcher.cpp:582 | decoding reads back the first encoded character, whatever follows it |
| Utf8.EncodeDecode | Source/Samples/54_TurboBadger/UTBRendererBatcher.cpp:582 | converse: a decoded character is a scalar value whose encoding is exactly the bytes consumed |
| Utf8.FirstByteKey | Source/Samples/54_TurboBadger/UTBRendererBatcher.cpp:582 | as written: the key is the first byte as a signed char, between -128 and 127, or the terminating 0 of an empty text |
| Utf8.FirstCharKey | Source/Samples/54_TurboBadger/UTBRendererBatcher.cpp:582 | corrected: the key is a Unicode scalar value, or 0 for empty text |
| Utf8.FirstCharKeyOfEncoded | Source/Samples/54_TurboBadger/UTBRendererBatcher.cpp:582 | corrected: the key is the code point of the first typed character |
| Utf8.FirstByteKeyAsciiAgrees | Source/Samples/54_TurboBadger/UTBRendererBatcher.cpp:582 | for ASCII text the written and the corrected key agree |
| Utf8.FirstByteKeyNegativeBeyondAscii | Source/Samples/54_TurboBadger/UTBRendererBatcher.cpp:582 | as written, every non-ASCII character becomes a negative key, never its code point |
| Utf8.FirstByteKeyMisreadsEAcute | Source/Samples/54_TurboBadger/UTBRendererBatcher.cpp:582 | typing "é" (bytes C3 A9) forwards -61 where 233 is meant |
| Input.HandleMouseButtonDown | Source/Samples/54_TurboBadger/UTBRendererBatcher.cpp:486-501 | forwarded exactly when the held buttons are the left button alone, as a single click at the remembered position |
| Input.HandleMouseButtonUp | Source/Samples/54_TurboBadger/UTBRendererBatcher.cpp:505-513 | every release is forwarded at the remembered position, whatever the button |
| Input.HandleMouseMove | Source/Samples/54_TurboBadger/UTBRendererBatcher.cpp:517-526 | the new position is remembered and forwarded; the key table is untouched |
| Input.HandleMouseWheel | Source/Samples/54_TurboBadger/UTBRendererBatcher.cpp:530-539 | forwarded at the remembered position as a vertical delta of opposite sign, with no horizontal delta |
| Input.HandleKeyDown | Source/Samples/54_TurboBadger/UTBRendererBatcher.cpp:543-559 | forwarded exactly when the key translates to a special key, and then with that special key |
| Input.HandleKeyUp | Source/Samples/54_TurboBadger/UTBRendererBatcher.cpp:563-573 | every release is forwarded, with its special key or "undefined" |
| Input.HandleTextInput | Source/Samples/54_TurboBadger/UTBRendererBatcher.cpp:577-586 | every text is forwarded as a key press whose key is its first byte read as a signed char, with no special key and the modifiers of the empty mask |
| Input.HandleTextInputCorrected | Source/Samples/54_TurboBadger/UTBRendererBatcher.cpp:577-586 | corrected: the same call, with the first typed character's code point as the key |
| Input.TextInputCorrectionIff | Source/Samples/54_TurboBadger/UTBRendererBatcher.cpp:582 | the corrected handler forwards the typed character. The handler as written makes the same call exactly when that character is ASCII; otherwise only the key differs |
| Input.Handle | Source/Samples/54_TurboBadger/UTBRendererBatcher.cpp:486-586 | no handler changes the key table; only a mouse move changes any state |
| Input.RunState | Source/Samples/54_TurboBadger/UTBRendererBatcher.cpp:517-526 | after any run of events, the remembered position is that of the last mouse move (or the start) |
| Input.RunOutput | Source/Samples/54_TurboBadger/UTBRendererBatcher.cpp:486-586 | event i's forwarded call is what its handler makes in the state left by the events before it |
| Input.PointerEventsUseLastMove | Source/Samples/54_TurboBadger/UTBRendererBatcher.cpp:500 | button and wheel events reach the toolkit at the latest mouse move before them |
| Input.KeyDownForwardedIff | Source/Samples/54_TurboBadger/UTBRendererBatcher.cpp:549-558 | with the start-up table, a key press is forwarded exactly when it is a special key, as that key's counterpart |
| Input.ModifiersOnlyForSingleMasks | Source/Samples/54_TurboBadger/UTBRendererBatcher.cpp:492 | with the start-up table, events carry a modifier only for a single qualifier mask, not for combinations |
| Input.TextInputHasNoModifier | Source/Samples/54_TurboBadger/UTBRendererBatcher.cpp:581-583 | text input always forwards "no modifier", as written and corrected, because 0 + `QAL_VAL` is not in the table |
| Singleton.Create | Source/Samples/54_TurboBadger/UTBRendererBatcher.h:72-78 | allocates an instance covering a (0, 0, width, height) screen only when none exists; otherwise nothing changes |
| Singleton.Destroy | Source/Samples/54_TurboBadger/UTBRendererBatcher.h:80-87 | removes an existing instance from the UI tree and clears the pointer; does nothing when there is none |
| Singleton.CreateIdempotent | Source/Samples/54_TurboBadger/UTBRendererBatcher.h:72-78 | a second `Create` changes nothing, whatever size it asks for |
| Singleton.DestroyIdempotent | Source/Samples/54_TurboBadger/UTBRendererBatcher.h:80-87 | a second `Destroy` changes nothing |
| Singleton.RecreateIsNew | Source/Samples/54_TurboBadger/UTBRendererBatcher.h:72-87 | identities stay fresh, so an instance created after `Destroy` is never one that was removed |
| Singleton.Apply | Source/Samples/54_TurboBadger/UTBRendererBatcher.h:72-87 | a run of calls never reuses an identity counter value and never forgets a removed instance |
| Singleton.AlwaysFresh | Source/Samples/54_TurboBadger/UTBRendererBatcher.cpp:58 | from the null pointer the static starts as, any run of `Create` and `Destroy` keeps identities fresh, so the live instance is never a removed one |

## Left out

- Key and qualifier constants: the engine's and toolkit's numeric values are not part of this model. They are parameters constrained by `KeyMap.Valid`.
- Texture coordinates: they are computed in floating point from the source rectangle, the bitmap size and the `uvOffset` of 0 or 0.5. `Renderer.AddQuad` takes them as a parameter and models only when they are recomputed and reused.
- Vertex positions: they are converted to `float` by the source. The model keeps them as integers, so rounding beyond 2^24 is not modelled.
- 32-bit overflow: the model leaves out overflow of `x + w` and `y + h` in positions and scissors, and of the unsigned slot counts in `RenderBatch` and `GetBatches`.
- `UIBatch::AddOrMerge`: this engine code is not part of this model. It is modelled as appending the batch; merging with a compatible last batch is not modelled.
- UI batch fields: the blend mode and the element pointer are not modelled, and neither is `GetBatches`' `currentScissor` parameter, which the source never reads.
- Toolkit batch internals: `Batch::Flush` and `Batch::Reserve` are toolkit code and not part of this model. Flush is modelled as skipping an empty batch, and otherwise submitting it, emptying it and incrementing its id. Its re-entrancy guard is not modelled. The 32-bit wrap of the batch id is not modelled either: ids are unbounded. The flush `Reserve` makes when the batch is full is not modelled.
- Engine calls: `CreateBitmap`, `UTBBitmap::SetData`, texture creation and the bitmap's destructor are engine calls.
- Per-frame and resize handlers: `Init`, `LoadDefaultResources`, `RegisterHandlers`, `BeginPaint`/`EndPaint`, `HandleUpdate`, `HandleBeginFrame`, `HandlePostUpdate`, `HandlePostRenderUpdate` and `HandleScreenMode` are not modelled. They do I/O, read clocks or only call into the toolkit. The screen rectangle is modelled only as set at construction.
- `UTBFile`, `TBFile::Open`, the `Singleton()` accessor and the file `UIDrag.cpp`: file I/O and a demo widget, not part of the core.
- Toolkit widget calls: what the root widget does with the forwarded calls is toolkit behaviour. The model records only which call is made and with which arguments.
- Input.HandleMouseButtonDown: the engine's left-button constant is a parameter (`leftButton`).
- Input.HandleMouseWheel: for the single payload -2^31 the negation wraps as in 32-bit arithmetic, and the contract leaves that case unstated.
- Utf8.FirstByteKey: assumes `char` is signed, as on x86 and most desktop targets. Where `char` is unsigned (ARM Linux, Android), the key as written is the byte itself, e.g. 195 for "é"; that reading is not modelled.
- Input.HandleTextInputCorrected: ill-formed UTF-8 gives U+FFFD, a modelling choice; the source never decodes.
- KeyMap.QualifierLookup: masks of 2^29 or more, where `mask + QAL_VAL` wraps, are outside the contract.

## Findings

| source | as written | input that shows it | evidently intended | confidence | as-written member | corrected member |
|---|---|---|---|---|---|---|
| Source/Samples/54_TurboBadger/UTBRendererBatcher.cpp:582 | the key forwarded for text input is the first byte of the UTF-8 text, converted through `char` | typing "é": the text is bytes C3 A9, and the key forwarded is -61 where `char` is signed (195 where it is unsigned) | the code point of the first typed character, 233 | medium, not executed | Utf8.FirstByteKeyMisreadsEAcute | Input.HandleTextInputCorrected |
