/**
 * lib/images.py: `image_cacher` returns a `load` function that memoises
 * surfaces by (path, convert, size). A miss loads the file, scales it when a
 * size is given, converts it when asked, and stores the result; a hit returns
 * the stored surface itself. The pygame loader, `transform.scale` and
 * `convert` are modelled as making new surfaces whose content records the
 * steps that made them.
 */
module Images {
  import opened Wrappers

  /** A surface's content, as the steps that made it. */
  datatype Image = Loaded(path: string) | Scaled(source: Image, size: (int, int)) | Converted(source: Image)

  /** The memo key `(image_path, convert, size)`; a size of None is the default. */
  datatype CacheKey = CacheKey(path: string, convert: bool, size: Option<(int, int)>)

  /**
   * What `load` makes on a miss: the file, scaled when a size is given (any
   * pair is truthy), then converted when `convert` is set.
   */
  function Expected(k: CacheKey): Image {
    var loaded := Loaded(k.path);
    var scaled := if k.size.Some? then Scaled(loaded, k.size.value) else loaded;
    if k.convert then Converted(scaled) else scaled
  }

  /**
   * The content determines the key: the same path with other options is a
   * different image, which is why the options are part of the key.
   */
  lemma ExpectedDeterminesKey(k1: CacheKey, k2: CacheKey)
    ensures Expected(k1) == Expected(k2) <==> k1 == k2
  {
    if Expected(k1) == Expected(k2) {
      match Expected(k1)
      case Converted(_) =>
      case Scaled(_, _) =>
      case Loaded(_) =>
    }
  }

  /** Both options given: the scale comes first and the conversion is applied to its result. */
  lemma ScaleBeforeConvert(path: string, size: (int, int))
    ensures Expected(CacheKey(path, true, Some(size))) == Converted(Scaled(Loaded(path), size))
    ensures Expected(CacheKey(path, false, None)) == Loaded(path)
  {
  }

  /** A pygame surface; identity is object identity, as Python's `is`. */
  class Surface {
    const content: Image

    constructor (content: Image)
      ensures this.content == content
    {
      this.content := content;
    }
  }

  /** `pygame.image.load`. */
  method LoadFile(path: string) returns (s: Surface)
    ensures fresh(s) && s.content == Loaded(path)
  {
    s := new Surface(Loaded(path));
  }

  /** `pygame.transform.scale`: a new surface. */
  method Scale(s: Surface, size: (int, int)) returns (t: Surface)
    ensures fresh(t) && t.content == Scaled(s.content, size)
  {
    t := new Surface(Scaled(s.content, size));
  }

  /** `Surface.convert`: a new surface. */
  method Convert(s: Surface) returns (t: Surface)
    ensures fresh(t) && t.content == Converted(s.content)
  {
    t := new Surface(Converted(s.content));
  }

  /** The closure made by `image_cacher`: its `images` dict, and a log of the loader's calls. */
  class ImageCache {
    var images: map<CacheKey, Surface>
    /** The paths `pygame.image.load` was called with, in order. */
    var loads: seq<string>

    /** Every stored surface is what a miss on its key makes. */
    ghost predicate Valid()
      reads this
    {
      forall k <- images :: images[k].content == Expected(k)
    }

    /** `image_cacher()`: an empty table. */
    constructor ()
      ensures Valid() && images == map[] && loads == []
    {
      images := map[];
      loads := [];
    }

    /**
     * `load(image_path, convert, size)`: a hit returns the stored surface and
     * calls nothing; a miss calls the loader once, stores the new surface
     * under exactly this key and returns it. Entries are never replaced or
     * removed.
     */
    method Load(path: string, convert: bool, size: Option<(int, int)>) returns (image: Surface)
      requires Valid()
      modifies this`images, this`loads
      ensures Valid()
      ensures image.content == Expected(CacheKey(path, convert, size))
      ensures CacheKey(path, convert, size) in old(images) ==>
        image == old(images)[CacheKey(path, convert, size)] && images == old(images) && loads == old(loads)
      ensures CacheKey(path, convert, size) !in old(images) ==>
        fresh(image) && images == old(images)[CacheKey(path, convert, size) := image] && loads == old(loads) + [path]
      ensures forall k <- old(images) :: k in images && images[k] == old(images)[k]
    {
      var key := CacheKey(path, convert, size);
      if key in images {
        return images[key];
      }
      image := LoadFile(path);
      loads := loads + [path];
      if size.Some? {
        image := Scale(image, size.value);
      }
      if convert {
        image := Convert(image);
      }
      images := images[key := image];
    }
  }

  /**
   * The module's own check: loading the same file twice gives the same
   * surface, and so does loading it twice converted and scaled, which is a
   * different surface from the first; the loader runs once per distinct key.
   */
  method Demo() returns (bamboo: Surface, bamboo2: Surface, bg1: Surface, bg2: Surface, calls: nat)
    ensures bamboo == bamboo2 && bg1 == bg2 && bamboo != bg1
    ensures bamboo.content == Loaded("../images/backgrounds/bamboo.png")
    ensures bg1.content == Converted(Scaled(Loaded("../images/backgrounds/bamboo.png"), (550, 323)))
    ensures calls == 2
  {
    var load := new ImageCache();
    bamboo := load.Load("../images/backgrounds/bamboo.png", false, None);
    bamboo2 := load.Load("../images/backgrounds/bamboo.png", false, None);
    bg1 := load.Load("../images/backgrounds/bamboo.png", true, Some((550, 323)));
    bg2 := load.Load("../images/backgrounds/bamboo.png", true, Some((550, 323)));
    calls := |load.loads|;
  }
}
