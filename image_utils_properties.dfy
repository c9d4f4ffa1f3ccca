/** What getYmsImages and getInstance promise, proved about the model in ImageUtils. */
module ImageUtilsProperties {
  import opened Wrappers
  import opened KeyDerivation
  import opened ImageUtils

  /** True when `after` holds no regular file that `before` did not hold with the same bytes. */
  predicate NoNewFile(before: Directory, after: Directory)
  {
    forall k :: k in after && after[k].File? ==> k in before && before[k] == after[k]
  }

  /**
   * A memory hit returns the bitmap stored under the URL's key, changes
   * neither memory nor the directory, and does not depend on the network.
   */
  lemma MemoryHitConsultsNothingElse(codec: Codec, memory: map<string, Bitmap>, dir: Directory,
                                     url: Url, net: NetResult, other: NetResult)
    requires Url2Key(url) in memory
    ensures Lookup(codec, memory, dir, url, net) == Transition(memory, dir, Returned(Some(memory[Url2Key(url)])))
    ensures Lookup(codec, memory, dir, url, net) == Lookup(codec, memory, dir, url, other)
  {
  }

  /**
   * A bitmap from the cache directory is written back to memory under the
   * URL's key and returned; the network is not consulted.
   */
  lemma FileHitWritesBackToMemory(codec: Codec, memory: map<string, Bitmap>, dir: Directory,
                                  url: Url, net: NetResult, other: NetResult, b: Bitmap)
    requires Url2Key(url) !in memory
    requires LoadFromFile(codec, dir, Url2Key(url)).bitmap == Some(b)
    ensures var t := Lookup(codec, memory, dir, url, net);
      t.outcome == Returned(Some(b)) &&
      t.memory == memory[Url2Key(url) := b] &&
      t.dir == dir[Url2Key(url) := Dir]
    ensures Lookup(codec, memory, dir, url, net) == Lookup(codec, memory, dir, url, other)
  {
  }

  /**
   * The directory tier decodes only a path that mkdirs has just created; a
   * path that already exists gives null and stays as it was. Either way the
   * path exists afterwards. With the platform's decoder, which gives null on a
   * directory, the tier never yields a bitmap.
   */
  lemma FileTierOnlyDecodesFreshDirectory(codec: Codec, dir: Directory, key: string)
    ensures var l := LoadFromFile(codec, dir, key);
      key in l.dir &&
      (key in dir ==> l == Loaded(None, dir)) &&
      (key !in dir ==> l.dir == dir[key := Dir] && l.bitmap == codec.decodeFile(Dir))
    ensures DecodesNoDirectory(codec) ==> LoadFromFile(codec, dir, key).bitmap == None
  {
  }

  /**
   * Only an HTTP 200 response yields a network bitmap: any other status, a
   * malformed URL or an I/O failure returns null, and a URL whose scheme is not
   * HTTP ends in the ClassCastException that escapes. None of them adds a
   * memory entry or a file (at most the directory that mkdirs made).
   */
  lemma OnlyOkYieldsNetworkBitmap(codec: Codec, memory: map<string, Bitmap>, dir: Directory,
                                  url: Url, net: NetResult)
    requires Url2Key(url) !in memory
    requires LoadFromFile(codec, dir, Url2Key(url)).bitmap == None
    requires !(net.Response? && net.code == HttpOk)
    ensures var t := Lookup(codec, memory, dir, url, net);
      t.outcome == (if net.NotHttp? then ClassCastThrown else Returned(None)) &&
      t.memory == memory &&
      t.dir == LoadFromFile(codec, dir, Url2Key(url)).dir &&
      NoNewFile(dir, t.dir)
  {
  }

  /**
   * A well-formed URL whose scheme is not HTTP gets past both cache tiers on
   * every call that misses memory: the cast to HttpURLConnection throws, the
   * exception escapes getYmsImages, and it leaves behind only the directory
   * that mkdirs made at cacheDir/key.
   */
  lemma NonHttpUrlEscapes(codec: Codec, memory: map<string, Bitmap>, dir: Directory, url: Url)
    requires Url2Key(url) !in memory
    ensures var t := Lookup(codec, memory, dir, url, NotHttp);
      var key := Url2Key(url);
      (LoadFromFile(codec, dir, key).bitmap == None ==>
        t == Transition(memory, LoadFromFile(codec, dir, key).dir, ClassCastThrown)) &&
      (DecodesNoDirectory(codec) ==> t.outcome == ClassCastThrown && t.memory == memory && key in t.dir)
  {
  }

  /** The outcome of a call that neither cache tier answers and whose save cannot succeed. */
  function NetworkOnly(net: NetResult): Outcome
  {
    if net.NotHttp? then ClassCastThrown
    else Returned(if net.Response? && net.code == HttpOk then net.body else None)
  }

  /**
   * On HTTP 200 with a decodable body the bitmap is returned whatever the save
   * does. It is saved to cacheDir/key first and put into memory only when the
   * save succeeded; when the path is a directory the save throws and the put is
   * skipped. So memory never holds the bitmap without the file beside it.
   */
  lemma OkResponseSavesBeforeCaching(codec: Codec, memory: map<string, Bitmap>, dir: Directory,
                                     url: Url, b: Bitmap)
    requires Url2Key(url) !in memory
    requires LoadFromFile(codec, dir, Url2Key(url)).bitmap == None
    ensures var key := Url2Key(url);
      var loaded := LoadFromFile(codec, dir, key).dir;
      var t := Lookup(codec, memory, dir, url, Response(HttpOk, Some(b)));
      t.outcome == Returned(Some(b)) &&
      (loaded[key] == Dir ==> t.memory == memory && t.dir == loaded) &&
      (loaded[key] != Dir ==> t.memory == memory[key := b] && t.dir == loaded[key := File(codec.compress(b))]) &&
      (key in t.memory ==> t.dir[key] == File(codec.compress(b)))
  {
  }

  /**
   * On HTTP 200 with a body decodeStream cannot decode, null is returned when
   * the path is a directory (the save throws FileNotFoundException, which is
   * caught). When it is a regular file, the file is truncated and the
   * NullPointerException from bitmap.compress escapes getYmsImages. Memory is
   * unchanged either way.
   */
  lemma UndecodableOkResponse(codec: Codec, memory: map<string, Bitmap>, dir: Directory, url: Url)
    requires Url2Key(url) !in memory
    requires LoadFromFile(codec, dir, Url2Key(url)).bitmap == None
    ensures var key := Url2Key(url);
      var loaded := LoadFromFile(codec, dir, key).dir;
      var t := Lookup(codec, memory, dir, url, Response(HttpOk, None));
      t.memory == memory &&
      (loaded[key] == Dir ==> t.outcome == Returned(None) && t.dir == loaded) &&
      (loaded[key] != Dir ==> t.outcome == NullPointerThrown && t.dir == loaded[key := File([])])
  {
  }

  /**
   * As written, the cache never fills for a URL whose key is neither in
   * memory nor a regular file in the directory: mkdirs turns the path into a
   * directory, decoding it gives null, the save into it throws, and the memory
   * put is skipped. The outcome is the network's alone and the state for the
   * key stays as it was, so every later call goes to the network again.
   */
  lemma CacheNeverFillsForFreshKey(codec: Codec, memory: map<string, Bitmap>, dir: Directory,
                                   url: Url, net: NetResult)
    requires DecodesNoDirectory(codec)
    requires Url2Key(url) !in memory
    requires Url2Key(url) !in dir || dir[Url2Key(url)] == Dir
    ensures var key := Url2Key(url);
      var t := Lookup(codec, memory, dir, url, net);
      t.memory == memory &&
      t.dir == dir[key := Dir] &&
      t.outcome == NetworkOnly(net)
  {
  }

  /**
   * The consequence for a whole run of calls on one URL from a fresh
   * instance: memory stays empty and every call ends as the network
   * alone decides.
   */
  function RunLookups(codec: Codec, memory: map<string, Bitmap>, dir: Directory, url: Url, nets: seq<NetResult>): (ts: seq<Transition>)
    ensures |ts| == |nets|
    decreases |nets|
  {
    if nets == [] then []
    else
      var t := Lookup(codec, memory, dir, url, nets[0]);
      [t] + RunLookups(codec, t.memory, t.dir, url, nets[1..])
  }

  lemma {:induction false} RepeatedLookupsAlwaysUseNetwork(codec: Codec, dir: Directory, url: Url, nets: seq<NetResult>)
    requires DecodesNoDirectory(codec)
    requires Url2Key(url) !in dir || dir[Url2Key(url)] == Dir
    ensures var ts := RunLookups(codec, map[], dir, url, nets);
      forall i :: 0 <= i < |nets| ==>
        ts[i].memory == map[] &&
        ts[i].outcome == NetworkOnly(nets[i])
    decreases |nets|
  {
    if nets != [] {
      CacheNeverFillsForFreshKey(codec, map[], dir, url, nets[0]);
      var t := Lookup(codec, map[], dir, url, nets[0]);
      RepeatedLookupsAlwaysUseNetwork(codec, t.dir, url, nets[1..]);
      var ts := RunLookups(codec, map[], dir, url, nets);
      forall i | 0 <= i < |nets|
        ensures ts[i].memory == map[]
        ensures ts[i].outcome == NetworkOnly(nets[i])
      {
        if i > 0 {
          assert ts[i] == RunLookups(codec, t.memory, t.dir, url, nets[1..])[i - 1];
        }
      }
    }
  }

  /** Two calls of getInstance, with any contexts, return the same object. */
  method GetInstanceTwice(statics: Statics, first: Context, second: Context) returns (a: ImageUtils, b: ImageUtils)
    modifies statics
    ensures a == b && statics.instance == a
    ensures old(statics.instance) != null ==> a == old(statics.instance)
  {
    a := statics.GetInstance(first);
    b := statics.GetInstance(second);
  }
}
