/** The page: the raw text, the normalised markdown in three copies (the
    state shown to the mind map, the state of the markdown editor and the
    ref the markdown download reads), the editing toggle, the handle of the
    mind-map component, and the files the page itself saves. */
module App {
  import opened SmartText
  import opened MindMapEditor

  /** A file handed to the browser through a `Blob`, an object URL and a
      clicked `<a download>`. */
  datatype Download = Download(name: string, mime: string, content: string)

  class App {
    var input: string
    var markdown: string
    var mdEdit: string
    var isEditing: bool
    var markdownRef: string
    /** `mindMapEditorRef.current`: null until the component has mounted. */
    var editor: MindMapEditor?
    var downloads: seq<Download>

    /** The three copies of the markdown agree, and the mind map has been
        handed the current markdown as its prop. */
    predicate Valid()
      reads this, editor
    {
      && markdown == mdEdit == markdownRef
      && (editor != null ==> editor.Valid() && editor.markdown == markdown)
    }

    /** The first render: every text is empty and the editor is not being
        edited. When the mind-map component mounts, its handle is set and it
        runs its effect on the empty markdown. */
    constructor (editorMounted: bool, surface: bool)
      ensures input == "" && markdown == "" && mdEdit == "" && markdownRef == "" && !isEditing
      ensures editorMounted ==> editor != null && fresh(editor) && editor.surface == surface
      ensures editorMounted ==> editor.effects == (if surface then [Create("")] else [])
      ensures !editorMounted ==> editor == null
      ensures downloads == []
      ensures Valid()
    {
      input := "";
      markdown := "";
      mdEdit := "";
      isEditing := false;
      markdownRef := "";
      downloads := [];
      if editorMounted {
        editor := new MindMapEditor("", surface);
      } else {
        editor := null;
      }
    }

    /** The render after a state change hands `markdown` to the mind map as
        its prop; nothing is passed back. */
    method PassMarkdownProp()
      requires markdown == mdEdit == markdownRef
      requires editor != null ==> editor.Valid()
      modifies editor
      ensures editor != null ==> editor.markdown == markdown && editor.surface == old(editor.surface)
      ensures editor != null ==> editor.hasInstance == old(editor.hasInstance)
      ensures editor != null && (old(editor.markdown) == markdown || !editor.surface) ==> editor.effects == old(editor.effects)
      ensures editor != null && old(editor.markdown) != markdown && editor.surface ==>
        editor.effects == old(editor.effects) + [SetData(markdown), Fit]
      ensures Valid()
    {
      if editor != null {
        editor.ReceiveMarkdown(markdown);
      }
    }

    /** `handleInputChange`: keep the raw text and put its normalised form
        into all three copies. */
    method HandleInputChange(v: string)
      requires Valid()
      modifies this, editor
      ensures input == v
      ensures markdown == Normalize(v) && mdEdit == Normalize(v) && markdownRef == Normalize(v)
      ensures isEditing == old(isEditing) && editor == old(editor) && downloads == old(downloads)
      ensures editor != null ==> editor.markdown == Normalize(v) && editor.surface == old(editor.surface)
      ensures editor != null && (old(editor.markdown) == Normalize(v) || !editor.surface) ==> editor.effects == old(editor.effects)
      ensures editor != null && old(editor.markdown) != Normalize(v) && editor.surface ==>
        editor.effects == old(editor.effects) + [SetData(Normalize(v)), Fit]
      ensures Valid()
    {
      input := v;
      var md := SmartTextToMarkdown(v);
      markdown := md;
      mdEdit := md;
      markdownRef := md;
      PassMarkdownProp();
    }

    /** `handleMdEditChange`: the edited markdown goes into all three copies
        as typed; the raw text is left alone and the normaliser is not run. */
    method HandleMdEditChange(v: string)
      requires Valid()
      modifies this, editor
      ensures markdown == v && mdEdit == v && markdownRef == v
      ensures input == old(input) && isEditing == old(isEditing) && editor == old(editor) && downloads == old(downloads)
      ensures editor != null ==> editor.markdown == v && editor.surface == old(editor.surface)
      ensures editor != null && (old(editor.markdown) == v || !editor.surface) ==> editor.effects == old(editor.effects)
      ensures editor != null && old(editor.markdown) != v && editor.surface ==>
        editor.effects == old(editor.effects) + [SetData(v), Fit]
      ensures Valid()
    {
      mdEdit := v;
      markdown := v;
      markdownRef := v;
      PassMarkdownProp();
    }

    /** A click on the rendered preview opens the markdown editor. */
    method StartEditing()
      requires Valid()
      modifies this
      ensures isEditing
      ensures input == old(input) && markdown == old(markdown) && mdEdit == old(mdEdit) && markdownRef == old(markdownRef)
      ensures editor == old(editor) && downloads == old(downloads)
      ensures Valid()
    {
      isEditing := true;
    }

    /** Leaving the markdown editor closes it. */
    method StopEditing()
      requires Valid()
      modifies this
      ensures !isEditing
      ensures input == old(input) && markdown == old(markdown) && mdEdit == old(mdEdit) && markdownRef == old(markdownRef)
      ensures editor == old(editor) && downloads == old(downloads)
      ensures Valid()
    {
      isEditing := false;
    }

    /** `handleDownload`: nothing without the handle; otherwise exactly the
        export the menu item names. The page's own state does not change. */
    method HandleDownload(kind: ExportKind)
      requires Valid()
      modifies editor
      ensures editor != null ==> editor.effects == old(editor.effects) + ExportEffects(kind, editor.surface, editor.markdown)
      ensures editor != null ==> editor.markdown == old(editor.markdown) && editor.surface == old(editor.surface)
      ensures editor != null ==> editor.hasInstance == old(editor.hasInstance)
      ensures Valid()
    {
      if editor == null {
        return;
      }
      if kind == Svg {
        editor.DownloadSvg();
      }
      if kind == Png {
        editor.DownloadPng();
      }
      if kind == Jpg {
        editor.DownloadJpg();
      }
      if kind == Xmind {
        editor.DownloadXmind();
      }
    }

    /** `handleDownloadMarkdown`: saves the ref's markdown as it is, with no
        header, as `mindmap.md`. */
    method HandleDownloadMarkdown()
      requires Valid()
      modifies this
      ensures downloads == old(downloads) + [Download("mindmap.md", "text/markdown", old(markdownRef))]
      ensures input == old(input) && markdown == old(markdown) && mdEdit == old(mdEdit) && markdownRef == old(markdownRef)
      ensures isEditing == old(isEditing) && editor == old(editor)
      ensures Valid()
    {
      downloads := downloads + [Download("mindmap.md", "text/markdown", markdownRef)];
    }
  }
}
