/** `MCacheDict`: a memo table of images keyed by the lower-cased resolved path followed by
    the colour. Path resolution, the file read and the renderer are outside the model:
    resolution and reading are function parameters, and an image records what produced
    it (the file it was loaded from, or the SVG text that was rendered). */
module RenderCache {
  import opened Common
  import opened Strings

  /** The toolkit class a cache produces: `QPixmap` or `QIcon`. */
  datatype ImageClass = PixmapClass | IconClass

  datatype Image =
    | EmptyImage(cls: ImageClass)              // `self.cls()`
    | Loaded(cls: ImageClass, path: string)    // `self.cls(full_path)`
    | IconFromSvg(path: string)                // `QIcon(svg_path)`, no recolouring
    | Rendered(cls: ImageClass, svg: string)   // a 128x128 rendering of this SVG text

  /** The colour marker the SVG files use. */
  const Marker: string := "#555555"

  /** What the cache sees of its surroundings: `get_static_file`, reading a file, and the
      theme's icon colour (which may be unset). */
  datatype Env = Env(resolve: string -> Option<string>, read: string -> string, iconColor: Option<string>)

  /** The cache key: the lower-cased resolved path, then the colour ("" when there is none). */
  function Key(fullPath: string, color: string): (k: string)
    ensures |k| == |fullPath| + |color|
    ensures k[..|fullPath|] == Lower(fullPath) && k[|fullPath|..] == color
  {
    Lower(fullPath) + color
  }

  /** Paths that differ only in the case of their letters share one key. */
  lemma KeyIgnoresCase(fullPath: string, color: string)
    ensures Key(Lower(fullPath), color) == Key(fullPath, color)
  {
    LowerIdempotent(fullPath);
  }

  /** `_render_svg`: the colour is the given one or else the theme's. An icon cache with no
      colour at all loads the file as an icon; otherwise the file is read, every marker is
      replaced by the colour when there is one, and the text is rendered. */
  function RenderSvg(cls: ImageClass, svgPath: string, color: string, env: Env): (img: Image)
    ensures cls == IconClass && color == "" && env.iconColor.None? ==> img == IconFromSvg(svgPath)
    ensures color != "" ==> img == Rendered(cls, ReplaceAll(env.read(svgPath), Marker, color))
    ensures color == "" && env.iconColor.Some? ==> img == Rendered(cls, ReplaceAll(env.read(svgPath), Marker, env.iconColor.value))
    ensures color == "" && env.iconColor.None? && cls == PixmapClass ==> img == Rendered(cls, env.read(svgPath))
  {
    var replace := if color != "" then Some(color) else env.iconColor;
    if cls == IconClass && replace.None? then IconFromSvg(svgPath)
    else
      var content := env.read(svgPath);
      var content' := if replace.Some? then ReplaceAll(content, Marker, replace.value) else content;
      Rendered(cls, content')
  }

  /** An SVG made of marker-free pieces joined by markers is rendered with exactly those
      markers turned into the colour. */
  lemma RecolourMarkers(cls: ImageClass, svgPath: string, color: string, env: Env, pieces: seq<string>)
    requires color != ""
    requires |pieces| >= 1 && env.read(svgPath) == Join(pieces, Marker)
    requires forall i :: 0 <= i < |pieces| ==> forall j :: !OccursAt(pieces[i], Marker, j)
    ensures RenderSvg(cls, svgPath, color, env) == Rendered(cls, Join(pieces, color))
  {
    assert Marker[0] !in Marker[1..];
    ReplaceAllJoin(pieces, Marker, color);
  }

  /** `__call__` as a function of the table: the image returned and the new table. An
      unresolvable path gives a fresh empty image. A stored key gives its image. Otherwise
      the image is produced (rendered for paths ending in "svg", loaded otherwise) and
      stored. The table only grows and keeps every stored image. */
  function Lookup(table: map<string, Image>, cls: ImageClass, path: string, color: string, env: Env): (res: (Image, map<string, Image>))
    ensures env.resolve(path).None? ==> res == (EmptyImage(cls), table)
    ensures env.resolve(path).Some? ==>
      var key := Key(env.resolve(path).value, color);
      && key in res.1 && res.1[key] == res.0
      && res.1.Keys == table.Keys + {key}
      && (key in table ==> res.0 == table[key])
    ensures forall k :: k in table ==> k in res.1 && res.1[k] == table[k]
  {
    match env.resolve(path)
    case None => (EmptyImage(cls), table)
    case Some(fullPath) =>
      var key := Key(fullPath, color);
      if key in table then (table[key], table)
      else
        var img := if EndsWith(fullPath, "svg") then RenderSvg(cls, fullPath, color, env) else Loaded(cls, fullPath);
        (img, table[key := img])
  }

  /** On a miss the table gains the produced image: a rendering for an SVG path, a load
      otherwise. */
  lemma LookupMiss(table: map<string, Image>, cls: ImageClass, path: string, color: string, env: Env)
    requires env.resolve(path).Some? && Key(env.resolve(path).value, color) !in table
    ensures var fullPath := env.resolve(path).value;
      Lookup(table, cls, path, color, env).0
        == if EndsWith(fullPath, "svg") then RenderSvg(cls, fullPath, color, env) else Loaded(cls, fullPath)
  {
  }

  /** Asking twice gives the same image, and the second time changes nothing. */
  lemma LookupTwice(table: map<string, Image>, cls: ImageClass, path: string, color: string, env: Env)
    ensures var (img, table') := Lookup(table, cls, path, color, env);
      env.resolve(path).Some? ==> Lookup(table', cls, path, color, env) == (img, table')
  {
  }

  /** Two paths that resolve to names equal up to letter case share the entry the first
      one created. */
  lemma LookupCaseInsensitive(table: map<string, Image>, cls: ImageClass, p1: string, p2: string, color: string, env: Env)
    requires env.resolve(p1).Some? && env.resolve(p2).Some?
    requires Lower(env.resolve(p1).value) == Lower(env.resolve(p2).value)
    ensures var (img, table') := Lookup(table, cls, p1, color, env);
      Lookup(table', cls, p2, color, env) == (img, table')
  {
  }

  /** A cache: the class it produces and its table. */
  class CacheDict {
    const cls: ImageClass
    var table: map<string, Image>

    constructor (cls: ImageClass)
      ensures this.cls == cls && table == map[]
    {
      this.cls := cls;
      table := map[];
    }

    /** `__call__`: look the key up and store the image produced on a miss. */
    method Call(path: string, color: string, env: Env) returns (img: Image)
      modifies this
      ensures (img, table) == Lookup(old(table), cls, path, color, env)
    {
      var fullPath := env.resolve(path);
      if fullPath.None? {
        return EmptyImage(cls);
      }
      var key := Key(fullPath.value, color);
      if key in table {
        img := table[key];
      } else {
        if EndsWith(fullPath.value, "svg") {
          img := RenderSvg(cls, fullPath.value, color, env);
        } else {
          img := Loaded(cls, fullPath.value);
        }
        table := table[key := img];
      }
    }
  }

  /** The module-level caches `MPixmap` and `MIcon`: two separate instances with their own
      empty tables. */
  method NewCaches() returns (pixmaps: CacheDict, icons: CacheDict)
    ensures fresh(pixmaps) && fresh(icons) && pixmaps != icons
    ensures pixmaps.cls == PixmapClass && icons.cls == IconClass
    ensures pixmaps.table == map[] && icons.table == map[]
  {
    pixmaps := new CacheDict(PixmapClass);
    icons := new CacheDict(IconClass);
  }
}
