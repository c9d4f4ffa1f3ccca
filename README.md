# ImageUtils: a verified model of a three-tier image loader

`ImageUtils` is an Android image loader. It derives a cache key from an image
URL and looks the image up in three tiers: an in-memory `LruCache`, a cache
directory on disk (`getCacheDir()/YmsImages`), and the network. This project
models two parts of it in Dafny 4.11 and proves what they do:

* **Key derivation** (`url2Key`). The key is `String.valueOf(url.hashCode())`.
  The model has Java's UTF-16 code units, the `int` wrap-around of each Horner
  step `h = 31*h + c`, and `Integer.toString`. It proves the following:
  * the folded hash equals the documented polynomial `s[0]*31^(n-1) + … + s[n-1]` reduced to 32 bits;
  * the rendering parses back to the hash, so keys are equal exactly when the hashes are;
  * a key is `-`? followed by digits, at most 11 characters, and a plain file name;
  * distinct URLs can share a key (`"Aa"` and `"BB"`).
* **The lookup** (`getYmsImages`, `loadBitmapFromFile`, `saveBitmap2File`) and
  the process-wide instance (`getInstance`). The class `ImageUtils.ImageUtils`
  has two mutable fields, `memory` (the `LruCache`) and `cacheDir` (the cache
  directory, a map from child name to `Dir` or `File(bytes)`), and a constant
  `codec` standing for the platform's image codec. Its methods
  change them as the Java code does, step by step. Each method is proved equal
  to a pure function of the old state (`LoadFromFile`, `SaveToFile`, `Lookup`).
  The lemmas in `ImageUtilsProperties` state the tier order, the write-back and
  the error paths of those functions.

The model follows the code where it departs from its stated design:

* The "does the file exist" test in `loadBitmapFromFile` is `mkdirs()`. The call
  creates a directory at `cacheDir/key` when nothing is there, and only then
  decodes the path. When the path already exists, the test answers false.
* `BitmapFactory.decodeFile` gives null on a directory (`DecodesNoDirectory`).
  So as written the file tier never yields a bitmap.
* The save into that directory throws `FileNotFoundException`, which skips the
  memory put. So the cache never fills: every call for such a URL goes to the
  network (`CacheNeverFillsForFreshKey`, `RepeatedLookupsAlwaysUseNetwork`).
* Not every exception is swallowed: only `MalformedURLException` and
  `IOException` are caught. Two others escape `getYmsImages`:
  * a well-formed URL whose scheme is not HTTP (`file:`, `ftp:`, `jar:`) makes
    the cast of `openConnection()` to `HttpURLConnection` throw
    `ClassCastException`, after `mkdirs` has made the directory;
  * an HTTP 200 whose body does not decode, when the path is a regular file:
    the file is truncated, and the `NullPointerException` from
    `bitmap.compress` escapes.
* The key is a 32-bit hash, not a wide digest, so keys can collide.
* The file holds the bitmap re-encoded as JPEG, not the raw response bytes.
* No in-flight requests are deduplicated, and no write goes through a
  temporary file.

Files: `wrappers.dfy` (Option), `key_derivation.dfy` (module `KeyDerivation`),
`image_utils.dfy` (module `ImageUtils`: state, specification functions, the
class and the static `instance`), `image_utils_properties.dfy` (module
`ImageUtilsProperties`: lemmas about the lookup).

The foreign parts are parameters:

* The network is a `NetResult` for each call: a malformed URL, a URL whose
  scheme is not HTTP, an I/O failure, or a status code together with what `BitmapFactory.decodeStream` made of the
  body.
* The codec is a `Codec` value: `decodeFile` applied to what the path holds,
  and `compress` giving the bytes that `Bitmap.compress(JPEG, 100)` writes.
* The Android `Context` supplies the current contents of the cache directory,
  or `None` when it does not exist yet.

## Model

| member | source | states |
|---|---|---|
| KeyDerivation.ToInt32 | ymsimages/src/main/java/com/example/ymsimages/ImageUtils.java:191 | the Java `int` for a value is the one 32-bit value congruent to it modulo 2^32 |
| KeyDerivation.HashCode | ymsimages/src/main/java/com/example/ymsimages/ImageUtils.java:191 | `String.hashCode`, computed as a Horner fold with `int` wrap-around at each step, equals the independently defined polynomial `s[0]*31^(n-1)+…+s[n-1]` wrapped once to 32 bits (helped by `PolynomialSnoc` and `HornerStepWraps`) |
| KeyDerivation.NatToDecimal | ymsimages/src/main/java/com/example/ymsimages/ImageUtils.java:191 | decimal text of a natural number is non-empty, all digits, starts with `0` only for zero |
| KeyDerivation.Int32ToDecimal | ymsimages/src/main/java/com/example/ymsimages/ImageUtils.java:191 | `String.valueOf(int)`: the text starts with `-` exactly for a negative value, and every other character is a digit |
| KeyDerivation.Int32ToDecimalRoundTrip | ymsimages/src/main/java/com/example/ymsimages/ImageUtils.java:191 | parsing the rendered text gives back the `int` |
| KeyDerivation.Url2Key | ymsimages/src/main/java/com/example/ymsimages/ImageUtils.java:190-192 | `url2Key`: the key is an optional `-` and digits with no leading zero, 1 to 11 characters, and parses back to the URL's `hashCode`; `KeyIsRenderedHash`, `KeyIsFileName` and `KeysEqualIffHashesEqual` state the rest |
| KeyDerivation.KeyIsRenderedHash | ymsimages/src/main/java/com/example/ymsimages/ImageUtils.java:190-192 | `url2Key(url)` is the decimal rendering of the URL's 32-bit `hashCode`, and that text denotes the hash |
| KeyDerivation.KeyIsFileName | ymsimages/src/main/java/com/example/ymsimages/ImageUtils.java:190-192 | a key is an optional `-` and digits with no leading zero, 1 to 11 characters, not `.` or `..`, without `/` or `\`, so `new File(cacheDir, key)` is a direct child of `cacheDir` |
| KeyDerivation.KeysEqualIffHashesEqual | ymsimages/src/main/java/com/example/ymsimages/ImageUtils.java:190-192 | two URLs get the same key if and only if their hashes are equal |
| KeyDerivation.KeyCollision | ymsimages/src/main/java/com/example/ymsimages/ImageUtils.java:190-192 | the distinct URLs "Aa" and "BB" both get the key "2112" |
| ImageUtils.LoadFromFile | ymsimages/src/main/java/com/example/ymsimages/ImageUtils.java:177-183 | afterwards the path exists and nothing else changes; a bitmap comes only from a path that did not exist and is now a directory; an existing path gives null and is left as it was |
| ImageUtils.SaveToFile | ymsimages/src/main/java/com/example/ymsimages/ImageUtils.java:165-170 | the save succeeds exactly when the bitmap is non-null and the path is not a directory, and the file then holds the compressed bitmap; a directory throws FileNotFoundException and changes nothing; a null bitmap truncates the file and throws NullPointerException |
| ImageUtils.Lookup | ymsimages/src/main/java/com/example/ymsimages/ImageUtils.java:114-158 | `getYmsImages` as a function of the old state: memory changes at most by caching the returned bitmap under the URL's key, the directory changes at most at that key, after a memory miss the path exists, and a memory hit changes nothing; the lemmas of `ImageUtilsProperties` state each tier's behaviour |
| ImageUtils.ImageUtils.constructor | ymsimages/src/main/java/com/example/ymsimages/ImageUtils.java:78-90 | the memory cache starts empty and the cache directory exists (created empty when missing) |
| ImageUtils.ImageUtils.Mkdirs | ymsimages/src/main/java/com/example/ymsimages/ImageUtils.java:179 | `mkdirs` answers true exactly when nothing was at the path, creating a directory there; memory is untouched |
| ImageUtils.ImageUtils.LoadBitmapFromFile | ymsimages/src/main/java/com/example/ymsimages/ImageUtils.java:177-183 | result and new directory are those of `LoadFromFile` on the old directory; memory is untouched |
| ImageUtils.ImageUtils.SaveBitmap2File | ymsimages/src/main/java/com/example/ymsimages/ImageUtils.java:165-170 | thrown exception and new directory are those of `SaveToFile` on the old directory; memory is untouched |
| ImageUtils.ImageUtils.GetYmsImages | ymsimages/src/main/java/com/example/ymsimages/ImageUtils.java:114-158 | new memory, new directory and outcome are those of `Lookup` on the old state |
| ImageUtils.Statics.constructor | ymsimages/src/main/java/com/example/ymsimages/ImageUtils.java:58 | the static `instance` starts null |
| ImageUtils.Statics.GetInstance | ymsimages/src/main/java/com/example/ymsimages/ImageUtils.java:61-70 | the first call constructs a fresh instance from its context and stores it; once set, every call returns that same object and changes nothing |
| ImageUtilsProperties.GetInstanceTwice | ymsimages/src/main/java/com/example/ymsimages/ImageUtils.java:61-70 | two calls, with any contexts, return the same object, which is then the stored instance |
| ImageUtilsProperties.MemoryHitConsultsNothingElse | ymsimages/src/main/java/com/example/ymsimages/ImageUtils.java:117-122 | on a memory hit the bitmap under `url2Key(url)` is returned, memory and directory are unchanged, and the network makes no difference |
| ImageUtilsProperties.FileHitWritesBackToMemory | ymsimages/src/main/java/com/example/ymsimages/ImageUtils.java:124-131 | a bitmap from the directory tier is returned and stored in memory under `url2Key(url)`, and the network makes no difference |
| ImageUtilsProperties.FileTierOnlyDecodesFreshDirectory | ymsimages/src/main/java/com/example/ymsimages/ImageUtils.java:177-183 | a decode happens only when `mkdirs` created the path; an existing path gives null unchanged; the path exists afterwards; with a decoder that rejects directories the tier always gives null |
| ImageUtilsProperties.OnlyOkYieldsNetworkBitmap | ymsimages/src/main/java/com/example/ymsimages/ImageUtils.java:135-157 | without an HTTP 200 the call returns null (other status, malformed URL, I/O failure) or ends in the escaping ClassCastException (scheme not HTTP); memory is unchanged and no file is added |
| ImageUtilsProperties.NonHttpUrlEscapes | ymsimages/src/main/java/com/example/ymsimages/ImageUtils.java:135-154 | a well-formed URL whose scheme is not HTTP, missing memory, ends in a ClassCastException that escapes, with memory unchanged and only the directory made by `mkdirs` left behind |
| ImageUtilsProperties.OkResponseSavesBeforeCaching | ymsimages/src/main/java/com/example/ymsimages/ImageUtils.java:142-149 | on HTTP 200 the decoded bitmap is always returned; it is put into memory only when the save succeeded, when the path is a directory the put is skipped, and memory never holds it without its file |
| ImageUtilsProperties.UndecodableOkResponse | ymsimages/src/main/java/com/example/ymsimages/ImageUtils.java:142-170 | on HTTP 200 with an undecodable body, memory is unchanged; a directory path gives null; a regular file is truncated and a NullPointerException escapes |
| ImageUtilsProperties.CacheNeverFillsForFreshKey | ymsimages/src/main/java/com/example/ymsimages/ImageUtils.java:114-183 | with the platform decoder, a key neither in memory nor a regular file stays uncached: memory unchanged, the path a directory, the outcome decided by the network alone (a ClassCastException for a URL whose scheme is not HTTP) |
| ImageUtilsProperties.RepeatedLookupsAlwaysUseNetwork | ymsimages/src/main/java/com/example/ymsimages/ImageUtils.java:114-183 | from empty memory, every call in a run of calls for one such URL leaves memory empty and ends as the network alone decides for that call |

## Left out

- `getBitmap2` and `ImageLoaderCallback`: the `AsyncTask` thread hop and callback delivery are concurrency, not modelled.
- The double-checked locking in `getInstance`: only its sequential behaviour is modelled.
- `LruCache` eviction, access order and the memory budget `(int)(freeMemory * 0.2)`: the budget depends on the runtime and on floating point. The memory cache is a plain map that never evicts.
- `HttpURLConnection`, URL parsing and the 5-second timeouts: each call's network result is a parameter.
- `BitmapFactory.decodeStream`/`decodeFile` and `Bitmap.compress`: these are the foreign codec. They are parameters, and the compress's boolean result and any I/O error in the middle of a write are not modelled.
- A null `imageUrl`: a URL here is a sequence of code units and cannot be null, so the `NullPointerException` that `url2Key` raises on it (line 118 via line 191) is not modelled.
- `mkdirs` failing for a reason other than an existing path (permissions, a full disk) is not modelled. The caching of the hash inside `String` is not modelled either, since it does not change the value.
- The `FileOutputStream` opened by `saveBitmap2File` is never closed; resource leaks are not modelled.
- `Log.i` and `printStackTrace`: logging only.
