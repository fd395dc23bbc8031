# collagify-tg, modelled in Dafny

collagify-tg is a Telegram bot. It collects the photos posted to a channel and, once a day, sends
the channel a collage of that day's photos. This project models the sequential logic under the
Telegram, HTTP and cron plumbing, and proves properties of it:

- **The link store** (`cmd/storage.go`), in `storage.dfy`. A `Store` class holds the two tables:
  `chats`, keyed by `chat_id`, and `links`, which has no key. It models
  `RegisterChat`, `RegistreLink` (here `RegisterLink`), `Chats` and `Links`.
  `Links` selects one chat's rows ordered by timestamp. Its loop returns the message ids, and the
  links grouped into one `ToCollage` group per day.
- **The grid tiler** (`pkg/image/image.go`), in `tiler.dfy`. `concat` becomes `ConcatImages`,
  which works on an `array2` canvas:
  - it allocates `cols * w` by `rows * h`, taking `w` and `h` from the first image;
  - `Fill` paints the canvas white;
  - `DrawSrc` blits each image into its row-major cell.

  The result is proved equal, pixel by pixel, to the value `Tiled`. The lemmas state the layout
  facts about `Tiled`. `Concat` decodes every buffer, tiles the images and encodes the collage.
  The JPEG codecs are function parameters.
- **Helpers of the badger-based bot** (`cmd/main.go`), in four files:
  - `chatlist.dfy`: the value under the key "chats". Each chat id is stored as eight
    little-endian bytes of `uint64(id)`. Registration appends them; `cronHandler` decodes them in
    eight-byte chunks.
  - `layout.dfy`: the collage grid, `cols = min(5, n)` and `rows = ceil(n / cols)`.
  - `bot.dfy`: the largest-photo choice and the two write handlers, over a `Db` class.
  - `keys.dfy`: the `chatID_day_` key and prefix scheme.

`basics.dfy` holds `Option`, `Result` and the machine integer ranges.

A timestamp's day is `DayOf`: the floor of the Unix time, shifted by a fixed zone offset, over
86400. The formatted "YYYY-MM-DD" text is a one-to-one image of that day number, so grouping by
the text is grouping by the number. The property the proofs rely on is `DayOfMonotone`.

## Model

| member | source | states |
|---|---|---|
| Storage.Store.RegisterChat | cmd/storage.go:61-71 | an id not yet present adds exactly the row (chat id, timestamp); an id already present fails with a duplicate-key error and leaves `chats` unchanged; ids stay distinct; `links` unchanged |
| Storage.Store.RegisterLink | cmd/storage.go:73-85 | always appends exactly the one row (chat id, timestamp, url, message id), duplicates included; `chats` unchanged |
| Storage.Store.Chats | cmd/storage.go:87-108 | returns every registered chat id exactly once (as many ids as rows, no duplicates, membership equals the table's ids); changes nothing |
| Storage.Store.Links | cmd/storage.go:115-153 | with rows = the chat's rows by timestamp: messages are their message ids in order; concatenating the groups gives every row's (day, url) in row order; no groups iff no rows; every group non-empty; group dates strictly increasing |
| Storage.ScanRows | cmd/storage.go:125-152 | the grouping loop over rows sorted by timestamp, with the same guarantees as `Links`; `toCollageArr[i]` is always in range |
| Storage.ScanStep | cmd/storage.go:142-149 | scanning the next row of a timestamp-sorted list keeps the grouping invariant and extends the message ids by that row's id |
| Storage.AddToDay | cmd/storage.go:143-149 | the loop body opens a group exactly when the row's day differs from `prevDate`, appends the url to group `i`, and leaves `i` on the last group with `prevDate` its date |
| Storage.Select | cmd/storage.go:119 | the rows `where chat_id = ? order by timestamp asc` come out sorted by timestamp |
| Storage.SelectRows | cmd/storage.go:119 | the selected rows are exactly the chat's rows: each has the chat id, and each of the chat's rows occurs as often as in the table |
| Storage.OfChat | cmd/storage.go:119 | the filter keeps each row of the chat as often as it occurs and drops every other row |
| Storage.SortByTime | cmd/storage.go:119 | the ordering is sorted by timestamp and a permutation of its input |
| Storage.InsertByTime | cmd/storage.go:119 | inserting a row adds exactly that row to the multiset |
| Storage.InsertByTimeSorted | cmd/storage.go:119 | inserting into a sorted list keeps it sorted |
| Storage.DayOf | cmd/storage.go:143 | the day number is the count of whole days in the local time: `day * 86400 <= timestamp + offset < (day + 1) * 86400` |
| Storage.DayOfMonotone | cmd/storage.go:143 | a later timestamp never has an earlier day |
| Storage.GroupedByDayStep | cmd/storage.go:142-149 | one loop step (open a group when the day changes, append the url to the last group) keeps the grouping invariant |
| Storage.StepFlatten | cmd/storage.go:144-149 | one loop step extends the concatenated groups by exactly the new row's (day, url) |
| Storage.StepDates | cmd/storage.go:144-148 | one loop step keeps group dates strictly increasing and the last group's date equal to the last row's day |
| Storage.OpenDay | cmd/storage.go:144-148 | after the day check the last group carries the row's day |
| Storage.AppendToLast | cmd/storage.go:149 | appending a url to the last group keeps the number of groups and every date |
| Storage.FlattenOpenGroup | cmd/storage.go:145 | opening an empty group adds nothing to the concatenation |
| Storage.FlattenExtendLast | cmd/storage.go:149 | appending to the last group extends the concatenation by that one entry |
| Tiler.ConcatImages | pkg/image/image.go:13-39 | no image for an empty list; otherwise a fresh canvas `cols * w` wide and `rows * h` high, `w` and `h` from the first image, whose every pixel equals `TiledPixel` |
| Tiler.Fill | pkg/image/image.go:28 | every canvas pixel becomes the fill colour |
| Tiler.DrawSrc | pkg/image/image.go:31-36 | pixels in the cell clipped to the image become the image's pixel at the same offset (`draw.Src`, no blending); all other pixels are unchanged |
| Tiler.CellX | pkg/image/image.go:32 | the cell's left edge is a multiple of the image width, at column `idx % cols`, and the cell ends within the canvas width |
| Tiler.CellY | pkg/image/image.go:33 | the cell's top edge is a multiple of the image height, at row `idx / cols` |
| Tiler.Covers | pkg/image/image.go:34-35 | the pixels `draw.Draw` writes for image `idx` lie in that image's cell and within the image's own bounds |
| Tiler.TiledPixel | pkg/image/image.go:28-36 | a collage pixel is the white background or lies in the drawn part of some image's cell |
| Tiler.Tiled | pkg/image/image.go:19-25 | the collage is `cols * w` wide and `rows * h` high, with `w` and `h` from the first image |
| Tiler.CellInCanvas | pkg/image/image.go:23-34 | a cell is within the canvas width, and within its height iff `idx < rows * cols` |
| Tiler.CellsDisjoint | pkg/image/image.go:32-34 | cells of distinct indices never share a pixel |
| Tiler.TiledPixelInCell | pkg/image/image.go:31-36 | a pixel an image covers shows that image's pixel at the same offset in its cell |
| Tiler.TiledPixelOutside | pkg/image/image.go:28-36 | a pixel no image covers stays white |
| Tiler.ThreeImagesOnTwoByTwo | pkg/image/image.go:31-35 | three images on a two-by-two grid: first top-left, second top-right, third bottom-left, bottom-right white |
| Tiler.Concat | pkg/image/image.go:60-72 | if every buffer decodes, the result is the encoding of the tiled collage of the decoded images in input order; otherwise a decode error naming the first buffer that fails |
| Tiler.Decoded | pkg/image/image.go:61-68 | one decoded image per buffer, at the buffer's position |
| Tiler.Snapshot | pkg/image/image.go:38 | the canvas read as a picture of the same size and pixels |
| Tiler.SamePixels | pkg/image/image.go:38 | pictures of the same size with the same pixels are equal |
| ChatList.DecodeChats | cmd/main.go:90-99 | the chunk loop returns one id per eight bytes; its ids are `DecodeAll` of the value, and encoding them gives back the value |
| ChatList.ToUint64 | cmd/main.go:210 | `uint64(id)` is the value in the unsigned range congruent to `id` modulo 2^64 |
| ChatList.ToInt64 | cmd/main.go:94 | `int64(u)` is the value in the signed range congruent to `u` modulo 2^64 |
| ChatList.PutUint64 | cmd/main.go:210 | `PutUint64` writes eight bytes whose little-endian value is the number |
| ChatList.Uint64Of | cmd/main.go:94 | `Uint64` of eight bytes is the number `PutUint64` writes back as those same bytes |
| ChatList.EncodeChat | cmd/main.go:209-210 | a chat's eight bytes have a little-endian value congruent to the id modulo 2^64 |
| ChatList.DecodeChat | cmd/main.go:94 | the id read from a chunk is congruent to the chunk's little-endian value modulo 2^64 |
| ChatList.DecodeAll | cmd/main.go:91-96 | one id per eight bytes of the value |
| ChatList.DecodeAllChunk | cmd/main.go:92-95 | id `k` is the decoding of bytes `8k` to `8k + 8`, the chunk the loop reads on its `k`-th turn |
| ChatList.DecodeEncodeChat | cmd/main.go:209-210 | every int64 id, negative ones included, survives `uint64`, `PutUint64`, `Uint64` and `int64` |
| ChatList.EncodeDecodeChat | cmd/main.go:93-94 | every eight-byte chunk is the encoding of the id it decodes to |
| ChatList.DecodeAllEncodeAll | cmd/main.go:91-96 | decoding the stored value gives the registered ids in registration order |
| ChatList.EncodeAllDecodeAll | cmd/main.go:91-96 | every value of a length divisible by eight is the encoding of the ids it decodes to |
| ChatList.EncodeAll | cmd/main.go:225-228 | the stored value has eight bytes per registration |
| ChatList.LeValueOfLeBytes | cmd/main.go:210 | reading little-endian bytes gives back a number that fits |
| ChatList.LeBytesOfLeValue | cmd/main.go:94 | writing a read number gives back the bytes |
| ChatList.LeValueBound | cmd/main.go:94 | `n` little-endian bytes denote a number below `256^n` |
| Bot.Db.RegisterChat | cmd/main.go:200-231 | when "chats" is absent, stores exactly the chat's eight bytes; otherwise appends them to the old value; the registered ids gain the chat, duplicates included; links unchanged |
| Bot.Db.RegisteredChats | cmd/main.go:84-108 | returns the registered ids in registration order, none when "chats" is absent |
| Bot.Db.StoredValueAligned | cmd/main.go:225-228 | the stored value's length is eight times the number of registrations, so chunking never slices past the end |
| Bot.Db.ChannelPost | cmd/main.go:237-271 | no photos: nothing chosen and nothing written; otherwise the chosen photo has the largest `FileSize`, and its link (when it can be looked up) is stored under the chat's key for the day and clock; the post's photos end sorted by `FileSize` and remain a permutation; nothing else changes |
| Bot.LargestPhoto | cmd/main.go:238-247 | none for a post without photos; otherwise a photo of the post whose `FileSize` is at least every other photo's, with the photos left sorted by `FileSize` and a permutation of the input |
| Bot.SortBySize | cmd/main.go:243-245 | the photos are sorted by `FileSize` in place and remain a permutation of the input |
| Bot.SwapDown | cmd/main.go:243-245 | exchanging two neighbours keeps the photos a permutation |
| Bot.ScanAfterPost | cmd/main.go:263 | storing a post adds its key to the scan of its own chat and day and leaves every other scan unchanged |
| Layout.GridFor | cmd/main.go:158-162 | no grid for zero images (division by zero); otherwise `cols = min(5, n)` and `rows` is the least count with `rows * cols >= n` |
| Layout.CeilBounds | cmd/main.go:159-162 | rounding the quotient up gives `rows * cols >= n > (rows - 1) * cols` |
| Layout.GridShape | cmd/main.go:158-162 | at most five columns, less than a row of slack, and a single row of `n` for up to five images |
| Keys.ScanPrefix | cmd/main.go:117 | the prefix starts with the chat id's text and '_', holds the day between that and a closing '_', and is two characters longer than the id and the day together |
| Keys.LinkKey | cmd/main.go:263 | a link key starts with the scan prefix of its chat and day |
| Keys.ScanFindsOnlyItsChatAndDay | cmd/main.go:117 | the scan prefix of chat `c2` and day `d2` starts the key of chat `c` and day `d` iff `c2 == c` and `d2 == d` |
| Keys.DecimalInjective | cmd/main.go:117 | distinct chat ids print differently with `%d` |
| Keys.DigitsInjective | cmd/main.go:117 | distinct naturals have distinct decimal digits |
| Keys.Decimal | cmd/main.go:117 | `%d` of an id starts with a sign or digit and has no '_' |
| Keys.FirstField | cmd/main.go:117 | two underscore-free fields, each followed by '_' at the start of a key, are equal |
| Keys.LinkKeyIsNotChatsKey | cmd/main.go:263 | no link key is the key "chats" |

## Left out

- Telegram calls are not modelled: update dispatch, `GetFile`, `FileDownloadLink` and `SendPhoto`. `GetFile` plus `FileDownloadLink` is the `downloadLink` parameter of `Bot.Db.ChannelPost`.
- The HTTP download of the images in `cronHandler` is network I/O and is not modelled.
- Cron scheduling, `Start`, `Close`, `main`, and the setup of the badger and SQLite engines (PRAGMAs, table creation) are not modelled. Both stores are in-memory values.
- The `sync.RWMutex` of the store is left out. The store is modelled sequentially, one call at a time.
- Engine failures of any query, insert, scan or transaction are not modelled. The one error modelled is the primary-key violation in `RegisterChat`. Failures that `Bot.Db` handlers only log are not modelled either.
- `decode` and `encode` (`image.Decode`, `jpeg.Encode`) stand in as function parameters. The colour-model conversion of `draw.Draw` is left out: pictures are already RGBA.
- Tiler.ConcatImages: images are assumed to have their bounds at the origin.
- Tiler.Concat requires a non-empty list. With an empty list `concat` returns nil, and `jpeg.Encode` panics when it calls `Bounds()` on that nil image.
- Tiler.ConcatImages and Tiler.Concat take `rows` and `cols` as naturals, and `cols > 0` when there are images. Go panics when `cols` is 0, and negative values never arise from `GridFor`.
- Tiler.ConcatImages: canvas sizes do not overflow `int`.
- Storage.DayOf fixes one zone offset, chosen arbitrarily (UTC+3); the program uses whatever `time.Local` is. No proof depends on the value. Time zones with daylight saving and `time.Format` itself are not modelled.
- Storage.Select breaks timestamp ties in insertion order. SQLite does not promise an order for ties.
- Storage.Store.Chats returns ids in table order. SQL promises no order; the contract does not depend on it.
- Storage.Store.Links returns no messages, no groups and no error for a chat without rows, as the code does. cmd/main_test.go:74 expects `sql.ErrNoRows` there; that test targets a newer version of the program than the one modelled.
- Bot.Db.ChannelPost takes the day and clock text as parameters, since they come from the clock. The key's `%d` applied to the clock string yields Go's `%!d(string=...)` text, which `Keys.LinkKey` reproduces. Only the prefix matters.
- Bot.ScannedKeys models the prefix iterator of `cronHandler` as the set of keys it visits. The order in which badger yields them, sorted by key, is not modelled.
- The rest of the `cronHandler` pipeline is not modelled: downloads, then `Concat`, then `SendPhoto`, looping over chats.
