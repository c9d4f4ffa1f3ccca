/**
 * The three-tier lookup of ImageUtils (memory -> cache directory -> network)
 * and the process-wide instance.
 *
 * The LruCache is a map from key to bitmap. The cache directory is a map from
 * child name to node: every path the loader touches is new File(cacheDir, key),
 * and a key is always a plain file name (KeyDerivation.KeyIsFileName), so a
 * flat map describes it. The network and the image codec are foreign: the
 * network is an oracle value per call, the codec a pair of functions.
 */
module ImageUtils {
  import opened Wrappers
  import opened KeyDerivation

  /** A decoded image; its pixels play no part in the caching logic. */
  datatype Bitmap = Bitmap(pixels: seq<int>)

  /** What a child of the cache directory is. */
  datatype Node = Dir | File(bytes: seq<bv8>)

  /** The children of cacheDir, by name. */
  type Directory = map<string, Node>

  /**
   * The foreign codec: BitmapFactory.decodeFile applied to what the path
   * holds (null as None), and Bitmap.compress(JPEG, 100) as the bytes it
   * writes.
   */
  datatype Codec = Codec(decodeFile: Node -> Option<Bitmap>, compress: Bitmap -> seq<bv8>)

  /**
   * BitmapFactory.decodeFile opens the path as a stream; on a directory the
   * open fails and decodeFile returns null. This is a fact about the platform,
   * not about ImageUtils, and the lemmas that rely on it say so.
   */
  predicate DecodesNoDirectory(codec: Codec)
  {
    codec.decodeFile(Dir) == None
  }

  const HttpOk: int := 200

  /**
   * What the network part of getYmsImages observes: new URL(...) threw
   * MalformedURLException; the URL is well formed but its scheme is not HTTP
   * (file:, ftp:, jar:, ...), so the cast of openConnection() to
   * HttpURLConnection throws ClassCastException; opening, connecting or
   * reading threw IOException; or a response with its status code and what
   * BitmapFactory.decodeStream made of the body (None when it returned null).
   */
  datatype NetResult =
    | MalformedUrl
    | NotHttp
    | IoFailure
    | Response(code: int, body: Option<Bitmap>)

  /** Exceptions saveBitmap2File can raise. */
  datatype Failure = FileNotFound | NullPointer

  /** The directory after loadBitmapFromFile and the bitmap it returned. */
  datatype Loaded = Loaded(bitmap: Option<Bitmap>, dir: Directory)

  /** The directory after saveBitmap2File and the exception it threw, if any. */
  datatype Saved = Saved(dir: Directory, thrown: Option<Failure>)

  /**
   * What getYmsImages ends with: a returned bitmap (None for null), or an
   * exception that escapes it, since only MalformedURLException and
   * IOException are caught: the NullPointerException of bitmap.compress on a
   * null bitmap, or the ClassCastException of a URL whose scheme is not HTTP.
   */
  datatype Outcome = Returned(bitmap: Option<Bitmap>) | NullPointerThrown | ClassCastThrown

  /** The state after one getYmsImages call and how the call ended. */
  datatype Transition = Transition(memory: map<string, Bitmap>, dir: Directory, outcome: Outcome)

  /**
   * loadBitmapFromFile: new File(cacheDir, key).mkdirs() is used as the
   * existence test. It creates a directory at the path and answers true when
   * nothing was there; only then is the path decoded. When anything is there,
   * it answers false and the result is null.
   */
  function LoadFromFile(codec: Codec, dir: Directory, key: string): (l: Loaded)
    ensures key in l.dir && (key in dir ==> l.dir[key] == dir[key])
    ensures forall k :: k != key ==> (k in l.dir <==> k in dir)
    ensures forall k :: k in dir ==> k in l.dir && l.dir[k] == dir[k]
    ensures l.bitmap.Some? ==> key !in dir && l.dir[key] == Dir
    ensures key in dir ==> l.bitmap == None && l.dir == dir
  {
    if key in dir then Loaded(None, dir)
    else Loaded(codec.decodeFile(Dir), dir[key := Dir])
  }

  /**
   * saveBitmap2File: new FileOutputStream(cacheDir/key) is evaluated before
   * bitmap.compress is invoked. It throws FileNotFoundException on a directory;
   * otherwise it creates or truncates the file, and then a null bitmap throws
   * NullPointerException while a real one is compressed into the file.
   */
  function SaveToFile(codec: Codec, dir: Directory, key: string, bitmap: Option<Bitmap>): (s: Saved)
    ensures s.thrown == None <==> bitmap.Some? && !(key in dir && dir[key] == Dir)
    ensures s.thrown == None ==> s.dir == dir[key := File(codec.compress(bitmap.value))]
    ensures s.thrown == Some(FileNotFound) <==> key in dir && dir[key] == Dir
    ensures s.thrown == Some(FileNotFound) ==> s.dir == dir
    ensures s.thrown == Some(NullPointer) ==> s.dir == dir[key := File([])]
  {
    if key in dir && dir[key] == Dir then Saved(dir, Some(FileNotFound))
    else match bitmap
      case None => Saved(dir[key := File([])], Some(NullPointer))
      case Some(b) => Saved(dir[key := File(codec.compress(b))], None)
  }

  /**
   * getYmsImages: memory first, then the cache directory (writing a hit back
   * to memory), then the network; on HTTP 200 the decoded bitmap is saved to
   * the directory and then put into memory, and the put is skipped when the
   * save throws an IOException.
   *
   * Whatever happens, memory changes at most by caching the returned bitmap
   * under the URL's key, the directory changes at most at the URL's key, and
   * after a memory miss that path exists.
   */
  function Lookup(codec: Codec, memory: map<string, Bitmap>, dir: Directory, url: Url, net: NetResult): (t: Transition)
    ensures t.memory == memory ||
            (t.outcome.Returned? && t.outcome.bitmap.Some? &&
             t.memory == memory[Url2Key(url) := t.outcome.bitmap.value])
    ensures forall k :: k != Url2Key(url) ==>
              (k in t.dir <==> k in dir) && (k in dir ==> t.dir[k] == dir[k])
    ensures Url2Key(url) in memory || Url2Key(url) in t.dir
    ensures Url2Key(url) in memory ==> t.memory == memory && t.dir == dir
  {
    var key := Url2Key(url);
    if key in memory then Transition(memory, dir, Returned(Some(memory[key])))
    else
      var loaded := LoadFromFile(codec, dir, key);
      if loaded.bitmap.Some? then
        Transition(memory[key := loaded.bitmap.value], loaded.dir, Returned(loaded.bitmap))
      else if net.NotHttp? then Transition(memory, loaded.dir, ClassCastThrown)
      else if net.Response? && net.code == HttpOk then
        var saved := SaveToFile(codec, loaded.dir, key, net.body);
        match saved.thrown
        case None => Transition(memory[key := net.body.value], saved.dir, Returned(net.body))
        case Some(FileNotFound) => Transition(memory, saved.dir, Returned(net.body))
        case Some(NullPointer) => Transition(memory, saved.dir, NullPointerThrown)
      else Transition(memory, loaded.dir, Returned(None))
  }

  /**
   * What an Android Context supplies to the constructor: the contents of
   * getCacheDir()/YmsImages, None when that directory does not exist yet;
   * and the codec of the platform.
   */
  datatype Context = Context(cacheDir: Option<Directory>, codec: Codec)

  class ImageUtils {
    /** The LruCache<String, Bitmap>, without its eviction. */
    var memory: map<string, Bitmap>
    /** The children of cacheDir. */
    var cacheDir: Directory
    const codec: Codec

    /** Creates an empty memory cache and makes sure cacheDir exists. */
    constructor (context: Context)
      ensures memory == map[]
      ensures cacheDir == if context.cacheDir.Some? then context.cacheDir.value else map[]
      ensures codec == context.codec
    {
      memory := map[];
      codec := context.codec;
      if context.cacheDir.None? {
        cacheDir := map[];
      } else {
        cacheDir := context.cacheDir.value;
      }
    }

    /** File.mkdirs() on cacheDir/name: true exactly when it created the directory. */
    method Mkdirs(name: string) returns (created: bool)
      modifies this
      ensures created <==> name !in old(cacheDir)
      ensures cacheDir == if created then old(cacheDir)[name := Dir] else old(cacheDir)
      ensures memory == old(memory)
    {
      created := name !in cacheDir;
      if created {
        cacheDir := cacheDir[name := Dir];
      }
    }

    method LoadBitmapFromFile(url: Url) returns (bitmap: Option<Bitmap>)
      modifies this
      ensures Loaded(bitmap, cacheDir) == LoadFromFile(codec, old(cacheDir), Url2Key(url))
      ensures memory == old(memory)
    {
      var key := Url2Key(url);
      var created := Mkdirs(key);
      if created {
        bitmap := codec.decodeFile(cacheDir[key]);
      } else {
        bitmap := None;
      }
    }

    method SaveBitmap2File(url: Url, bitmap: Option<Bitmap>) returns (thrown: Option<Failure>)
      modifies this
      ensures Saved(cacheDir, thrown) == SaveToFile(codec, old(cacheDir), Url2Key(url), bitmap)
      ensures memory == old(memory)
    {
      var key := Url2Key(url);
      if key in cacheDir && cacheDir[key] == Dir {
        thrown := Some(FileNotFound);
        return;
      }
      cacheDir := cacheDir[key := File([])];
      if bitmap.None? {
        thrown := Some(NullPointer);
        return;
      }
      cacheDir := cacheDir[key := File(codec.compress(bitmap.value))];
      thrown := None;
    }

    method GetYmsImages(url: Url, net: NetResult) returns (outcome: Outcome)
      modifies this
      ensures Transition(memory, cacheDir, outcome) == Lookup(codec, old(memory), old(cacheDir), url, net)
    {
      var bitmap: Option<Bitmap> := None;
      var key := Url2Key(url);
      if key in memory {
        bitmap := Some(memory[key]);
        return Returned(bitmap);
      }
      bitmap := LoadBitmapFromFile(url);
      if bitmap.Some? {
        memory := memory[Url2Key(url) := bitmap.value];
        return Returned(bitmap);
      }
      if net.NotHttp? {
        return ClassCastThrown;
      }
      if net.Response? && net.code == HttpOk {
        bitmap := net.body;
        var thrown := SaveBitmap2File(url, bitmap);
        if thrown == Some(NullPointer) {
          return NullPointerThrown;
        } else if thrown == None {
          memory := memory[Url2Key(url) := bitmap.value];
        }
      }
      return Returned(bitmap);
    }
  }

  /** The static field ImageUtils.instance. */
  class Statics {
    var instance: ImageUtils?

    constructor ()
      ensures instance == null
    {
      instance := null;
    }

    /**
     * getInstance, read sequentially: the first call constructs the instance
     * from its context; every later call returns that same object and changes
     * nothing.
     */
    method GetInstance(context: Context) returns (r: ImageUtils)
      modifies this
      ensures old(instance) != null ==> r == old(instance) && instance == old(instance)
      ensures old(instance) == null ==> fresh(r) && instance == r
      ensures old(instance) == null ==> r.memory == map[] && r.codec == context.codec
      ensures old(instance) == null ==>
        r.cacheDir == if context.cacheDir.Some? then context.cacheDir.value else map[]
    {
      if instance == null {
        instance := new ImageUtils(context);
      }
      r := instance;
    }
  }
}
