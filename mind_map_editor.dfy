/** The mind-map component: the XMind interchange text, the four exports
    with their guards, and the effect that creates the visualisation once
    and updates it afterwards. The calls into the rendering, serialising
    and file-saving libraries are recorded as effects in a log. */
module MindMapEditor {
  import opened JsText

  // ---------------------------------------------------------------------
  // The interchange text of `downloadXmind`

  /** The header line that marks a markdown file as a mind map for XMind. */
  const XmindHeader: string := "#mindmap\n"

  /** `#mindmap\n${markdown.trim()}`. */
  function XmindContent(markdown: string): string {
    XmindHeader + Trim(markdown)
  }

  /** The header comes first, and dropping it gives back the trimmed markdown. */
  lemma XmindStrip(markdown: string)
    ensures |XmindContent(markdown)| == |XmindHeader| + |Trim(markdown)|
    ensures XmindContent(markdown)[..|XmindHeader|] == XmindHeader
    ensures XmindContent(markdown)[|XmindHeader|..] == Trim(markdown)
  {
  }

  /** Split into lines, the interchange text is the line `#mindmap`
      followed by the lines of the trimmed markdown. */
  lemma XmindLines(markdown: string)
    ensures SplitLines(XmindContent(markdown)) == ["#mindmap"] + SplitLines(Trim(markdown))
  {
    var c := XmindContent(markdown);
    XmindStrip(markdown);
    assert forall k :: 0 <= k < 8 ==> c[k] == XmindHeader[k];
    SpanUnique(c, 0, 8, IsNotNewline);
    SplitLinesStep(c, 8);
    assert c[..8] == "#mindmap";
  }

  /** Two markdown texts give the same interchange text exactly when they
      agree once trimmed. */
  lemma XmindSameIff(a: string, b: string)
    ensures XmindContent(a) == XmindContent(b) <==> Trim(a) == Trim(b)
  {
    if XmindContent(a) == XmindContent(b) {
      XmindStrip(a);
      XmindStrip(b);
    }
  }

  /** Trimming twice is trimming once. */
  lemma TrimTrim(s: string)
    ensures Trim(Trim(s)) == Trim(s)
  {
    var r := Trim(s);
    if r != [] {
      SpanUnique(r, 0, 0, IsSpace);
      assert TrimStart(r) == r;
    }
  }

  /** Surrounding whitespace of the markdown does not reach the interchange text. */
  lemma XmindOfTrimmed(markdown: string)
    ensures XmindContent(Trim(markdown)) == XmindContent(markdown)
  {
    TrimTrim(markdown);
  }

  // ---------------------------------------------------------------------
  // The effects the component performs through its libraries

  /** The four exports; `App.handleDownload` names them by these tags. */
  datatype ExportKind = Svg | Png | Jpg | Xmind

  /** What a saved file holds. The serialised SVG and the rendered images
      come from libraries; the model records only what the component
      decides: the kind of file, the `Blob` type it declares, the background
      colour it asks for and the text it writes itself. The raster exports
      save a data URL, not a `Blob`, so they declare no type. */
  datatype FileBody = SvgMarkup(mime: string) | PngImage(background: string) | JpegImage(background: string) | MarkdownText(mime: string, text: string)

  /** `Markmap.create`, `setData` and `fit` on the visualisation, and `saveAs`.
      The tree the markdown transformer builds is stood for by the markdown it
      was built from. */
  datatype Effect = Create(root: string) | SetData(root: string) | Fit | Save(name: string, body: FileBody)

  /** The background colour the raster exports pass to the image library. */
  const RasterBackground: string := "#fff"

  /** The `Blob` types of the SVG and the XMind exports. */
  const SvgMime: string := "image/svg+xml"
  const MarkdownMime: string := "text/markdown"

  /** The fixed name under which each export is saved. */
  function ExportName(kind: ExportKind): (name: string)
    ensures |name| >= 11 && name[..8] == "mindmap."
  {
    match kind
    case Svg => "mindmap.svg"
    case Png => "mindmap.png"
    case Jpg => "mindmap.jpg"
    case Xmind => "mindmap.xmind.md"
  }

  /** Distinct exports are saved under distinct names. */
  lemma ExportNamesDistinct(k1: ExportKind, k2: ExportKind)
    ensures ExportName(k1) == ExportName(k2) <==> k1 == k2
  {
    if k1 != k2 {
      var n1, n2 := ExportName(k1), ExportName(k2);
      if |n1| == |n2| {
        assert n1[8] != n2[8] || n1[9] != n2[9];
      }
    }
  }

  /** What one export writes to the log: a single save, or nothing for an
      image export when no surface is mounted. */
  function ExportEffects(kind: ExportKind, surface: bool, markdown: string): (r: seq<Effect>)
    ensures |r| <= 1
    ensures r == [] <==> kind != Xmind && !surface
    ensures r != [] ==> r[0].Save? && r[0].name == ExportName(kind)
  {
    match kind
    case Svg => if surface then [Save(ExportName(Svg), SvgMarkup(SvgMime))] else []
    case Png => if surface then [Save(ExportName(Png), PngImage(RasterBackground))] else []
    case Jpg => if surface then [Save(ExportName(Jpg), JpegImage(RasterBackground))] else []
    case Xmind => [Save(ExportName(Xmind), MarkdownText(MarkdownMime, XmindContent(markdown)))]
  }

  /** The SVG is saved as `image/svg+xml`, the raster exports ask for a white
      background, and the XMind export saves the interchange text as
      `text/markdown` whatever the surface. */
  lemma ExportBodies(kind: ExportKind, surface: bool, markdown: string)
    ensures kind == Svg && surface ==> ExportEffects(kind, surface, markdown)[0].body == SvgMarkup("image/svg+xml")
    ensures kind == Png && surface ==> ExportEffects(kind, surface, markdown)[0].body == PngImage("#fff")
    ensures kind == Jpg && surface ==> ExportEffects(kind, surface, markdown)[0].body == JpegImage("#fff")
    ensures kind == Xmind ==> ExportEffects(kind, surface, markdown) == [Save("mindmap.xmind.md", MarkdownText("text/markdown", XmindContent(markdown)))]
  {
  }

  /** How many times the visualisation was created. */
  function CreateCount(log: seq<Effect>): (n: nat)
    ensures n <= |log|
    decreases |log|
  {
    if log == [] then 0
    else CreateCount(log[..|log| - 1]) + (if log[|log| - 1].Create? then 1 else 0)
  }

  /** Counting creations over a log written in two parts. */
  lemma {:induction false} CreateCountAppend(a: seq<Effect>, b: seq<Effect>)
    ensures CreateCount(a + b) == CreateCount(a) + CreateCount(b)
    decreases |b|
  {
    if b == [] {
      assert a + b == a;
    } else {
      var n := |b| - 1;
      assert (a + b)[..|a + b| - 1] == a + b[..n];
      assert (a + b)[|a + b| - 1] == b[n];
      CreateCountAppend(a, b[..n]);
    }
  }

  /** The tree the visualisation shows last: the one given to the latest
      `create` or `setData`. */
  function Shown(log: seq<Effect>): (r: Option<string>)
    ensures r.None? ==> CreateCount(log) == 0
    ensures r.None? <==> forall i :: 0 <= i < |log| ==> !log[i].Create? && !log[i].SetData?
    ensures r.Some? ==> exists i :: 0 <= i < |log| && (log[i].Create? || log[i].SetData?) && log[i].root == r.value
    decreases |log|
  {
    if log == [] then None
    else
      var e := log[|log| - 1];
      if e.Create? || e.SetData? then Some(e.root) else Shown(log[..|log| - 1])
  }

  /** Appending effects that neither create nor set data leaves what is shown and
      the creation count as they were. */
  lemma {:induction false} QuietAppend(a: seq<Effect>, b: seq<Effect>)
    requires forall i :: 0 <= i < |b| ==> b[i].Save? || b[i].Fit?
    ensures Shown(a + b) == Shown(a) && CreateCount(a + b) == CreateCount(a)
    decreases |b|
  {
    if b == [] {
      assert a + b == a;
    } else {
      var n := |b| - 1;
      assert (a + b)[..|a + b| - 1] == a + b[..n];
      assert (a + b)[|a + b| - 1] == b[n];
      QuietAppend(a, b[..n]);
    }
  }

  // ---------------------------------------------------------------------
  // The component

  /** `MindMapEditor`: the `markdown` prop, whether the `<svg>` surface is
      mounted (`svgRef.current`), whether the visualisation handle exists
      (`markmapInstance.current`), and the log of library effects. */
  class MindMapEditor {
    var markdown: string
    var surface: bool
    var hasInstance: bool
    var effects: seq<Effect>

    /** The handle exists exactly when it was created once, and only on a
        surface; nothing is shown before it exists. */
    predicate Created()
      reads this
    {
      && CreateCount(effects) == (if hasInstance then 1 else 0)
      && (hasInstance ==> surface)
      && (Shown(effects).Some? ==> hasInstance)
    }

    /** Between renders: besides `Created`, on a surface the handle exists
        and the visualisation shows the current markdown. */
    predicate Valid()
      reads this
    {
      && Created()
      && (surface ==> hasInstance && Shown(effects) == Some(markdown))
    }

    /** Mounting: the first render takes the initial markdown, with or without
        a surface, and the effect then runs for the first time. */
    constructor (initial: string, mounted: bool)
      ensures markdown == initial && surface == mounted && hasInstance == mounted
      ensures effects == (if mounted then [Create(initial)] else [])
      ensures Valid()
    {
      markdown := initial;
      surface := mounted;
      hasInstance := false;
      effects := [];
      new;
      RunEffect();
    }

    /** The body of the effect: with a surface, create the handle if there is
        none, and otherwise hand the new tree to `setData` and then call `fit`;
        without a surface, do nothing. */
    method RunEffect()
      requires Created()
      modifies this
      ensures markdown == old(markdown) && surface == old(surface)
      ensures hasInstance == (old(hasInstance) || surface)
      ensures !surface ==> effects == old(effects)
      ensures surface && !old(hasInstance) ==> effects == old(effects) + [Create(markdown)]
      ensures surface && old(hasInstance) ==> effects == old(effects) + [SetData(markdown), Fit]
      ensures Valid()
    {
      if surface {
        if !hasInstance {
          CreateCountAppend(effects, [Create(markdown)]);
          assert [Create(markdown)][..0] == [];
          effects := effects + [Create(markdown)];
          hasInstance := true;
        } else {
          var before := effects;
          effects := effects + [SetData(markdown)];
          CreateCountAppend(before, [SetData(markdown)]);
          assert [SetData(markdown)][..0] == [];
          QuietAppend(effects, [Fit]);
          effects := effects + [Fit];
        }
      }
    }

    /** A render with the markdown prop `md`. The effect depends on
        `[markdown]`, so it runs only when the prop changed; once mounted on a
        surface the handle exists, so a change is always `setData` then `fit`. */
    method ReceiveMarkdown(md: string)
      requires Valid()
      modifies this
      ensures markdown == md && surface == old(surface) && hasInstance == old(hasInstance)
      ensures old(markdown) == md || !surface ==> effects == old(effects)
      ensures old(markdown) != md && surface ==> effects == old(effects) + [SetData(md), Fit]
      ensures CreateCount(effects) == CreateCount(old(effects))
      ensures Valid()
    {
      if markdown != md {
        markdown := md;
        RunEffect();
      }
    }

    /** `downloadSvg`: saves the serialised surface, if there is one. */
    method DownloadSvg()
      requires Valid()
      modifies this
      ensures effects == old(effects) + ExportEffects(Svg, surface, markdown)
      ensures markdown == old(markdown) && surface == old(surface) && hasInstance == old(hasInstance)
      ensures Valid()
    {
      QuietAppend(effects, ExportEffects(Svg, surface, markdown));
      if surface {
        effects := effects + [Save("mindmap.svg", SvgMarkup("image/svg+xml"))];
      }
    }

    /** `downloadPng`: renders the surface on a white background and saves it, if there is one. */
    method DownloadPng()
      requires Valid()
      modifies this
      ensures effects == old(effects) + ExportEffects(Png, surface, markdown)
      ensures markdown == old(markdown) && surface == old(surface) && hasInstance == old(hasInstance)
      ensures Valid()
    {
      QuietAppend(effects, ExportEffects(Png, surface, markdown));
      if surface {
        effects := effects + [Save("mindmap.png", PngImage("#fff"))];
      }
    }

    /** `downloadJpg`: the same as a JPEG. */
    method DownloadJpg()
      requires Valid()
      modifies this
      ensures effects == old(effects) + ExportEffects(Jpg, surface, markdown)
      ensures markdown == old(markdown) && surface == old(surface) && hasInstance == old(hasInstance)
      ensures Valid()
    {
      QuietAppend(effects, ExportEffects(Jpg, surface, markdown));
      if surface {
        effects := effects + [Save("mindmap.jpg", JpegImage("#fff"))];
      }
    }

    /** `downloadXmind`: saves the interchange text; it does not look at the surface. */
    method DownloadXmind()
      requires Valid()
      modifies this
      ensures effects == old(effects) + ExportEffects(Xmind, surface, markdown)
      ensures markdown == old(markdown) && surface == old(surface) && hasInstance == old(hasInstance)
      ensures Valid()
    {
      var xmindContent := "#mindmap\n" + Trim(markdown);
      QuietAppend(effects, ExportEffects(Xmind, surface, markdown));
      effects := effects + [Save("mindmap.xmind.md", MarkdownText("text/markdown", xmindContent))];
    }
  }
}
