/**
 * The older copy of the project modal. Its `slugify`, `extractToc`, `getFolderFromImagePath`,
 * reserved keys, gallery qualification and image index are the same as the current modal's and
 * are modelled once, in `ModalUtils` and `ProjectModal`. What is its own is modelled here: the
 * gallery it loads itself, with the cover as a one-image fallback, and the view state that
 * `resetView` puts back whenever the image changes.
 */
module LegacyModal {
  import opened Wrappers
  import opened Text
  import Galleries
  import Projects
  import PortfolioGrid
  import ProjectModal
  import ModalUtils

  /**
   * The media after the gallery load: `data.media || []` when gallery.json was fetched and
   * parsed, and the cover alone when the fetch, the status or the parse failed (`load` is None).
   */
  function GalleryAfterLoad(project: PortfolioGrid.Project, load: Option<Galleries.GalleryJson>): seq<Galleries.MediaItem> {
    match load
    case Some(data) => data.media.GetOr([])
    case None => [Galleries.MediaItem("image", project.image, None)]
  }

  /**
   * The gallery-loading effect when it runs: a load is started, for the current project,
   * exactly when the modal is open with a project.
   */
  function GalleryRequest(isOpen: bool, project: Option<PortfolioGrid.Project>): (r: Option<PortfolioGrid.Project>)
    ensures r.Some? <==> isOpen && project.Some?
    ensures r.Some? ==> r == project
  {
    if !isOpen || project.None? then None else project
  }

  /** A failed load shows exactly one image, the cover, whose absolute path qualification keeps. */
  lemma FailedLoadShowsCover(project: PortfolioGrid.Project)
    requires StartsWith(project.image, "/")
    ensures GalleryAfterLoad(project, None) == [Galleries.MediaItem("image", project.image, None)]
    ensures ProjectModal.Gallery(Some(project), GalleryAfterLoad(project, None)) == GalleryAfterLoad(project, None)
  {
  }

  /** Every cover the catalog builder writes is absolute. */
  lemma CoverIsAbsolute(folder: string, media: seq<Galleries.MediaItem>)
    ensures StartsWith(Projects.CoverImage(folder, media), "/")
  {
    var first := Projects.FirstImage(media);
    if first.Some? && first.value.src != "" {
      ProjectModal.RootedPath(folder, first.value.src);
    } else {
      ProjectModal.RootedPath(folder, Projects.FallbackCover);
    }
  }

  /** A successful load reads the manifest exactly as the gallery indexer reads its previous one. */
  lemma LoadReadsLikeIndexer(project: PortfolioGrid.Project, data: Galleries.GalleryJson)
    ensures GalleryAfterLoad(project, Some(data)) == Galleries.PriorMedia(Some(data))
  {
  }

  /**
   * End to end: for a project of the catalog, the manifest the indexer wrote for its folder is
   * shown entry by entry, in order, each file under the project's folder with its type.
   */
  lemma IndexedGalleryShown(project: PortfolioGrid.Project, folder: string, cover: seq<Galleries.MediaItem>,
                            files: seq<string>, existing: Option<Galleries.GalleryJson>)
    requires '/' !in folder && project.image == Projects.CoverImage(folder, cover)
    requires forall f :: f in files ==> !StartsWith(f, "/")
    ensures var entries := Galleries.GenerateGallery(files, existing);
      var g := ProjectModal.Gallery(Some(project), GalleryAfterLoad(project, Some(Galleries.Written(entries))));
      |g| == |entries|
      && forall i :: 0 <= i < |entries| ==>
        g[i].src == Projects.ImageRoot + folder + "/" + entries[i].src && g[i].kind == entries[i].kind.Name()
  {
    var entries := Galleries.GenerateGallery(files, existing);
    var media := Galleries.Written(entries).media.value;
    Galleries.GeneratedEntries(files, existing);
    ModalUtils.CoverFolder(folder, cover);
    var g := ProjectModal.Gallery(Some(project), media);
    ProjectModal.GalleryEntries(Some(project), media);
    forall i | 0 <= i < |entries|
      ensures g[i].src == Projects.ImageRoot + folder + "/" + entries[i].src && g[i].kind == entries[i].kind.Name()
    {
      assert Galleries.Srcs(entries)[i] == entries[i].src;
      assert media[i] == Galleries.Stored(entries[i]);
    }
  }

  /** The modal's state: the image on show, the details toggle, the media loaded, and the view. */
  class LegacyModalState {
    var currentIndex: int
    var detailsExpanded: bool
    var media: seq<Galleries.MediaItem>
    var zoom: real
    var x: real
    var y: real
    /** `inertiaRef.current`: the pending animation frame of the drag inertia, if any. */
    var inertia: Option<int>
    /** The animation frames cancelled so far, in order. */
    var cancelled: seq<int>

    constructor ()
      ensures currentIndex == 0 && !detailsExpanded && media == []
      ensures zoom == 1.0 && x == 0.0 && y == 0.0 && inertia == None && cancelled == []
    {
      currentIndex := 0;
      detailsExpanded := false;
      media := [];
      zoom := 1.0;
      x := 0.0;
      y := 0.0;
      inertia := None;
      cancelled := [];
    }

    predicate ViewReset()
      reads this
    {
      zoom == 1.0 && x == 0.0 && y == 0.0
    }

    /** The handle `if (inertiaRef.current)` treats as pending: present and not 0. */
    function PendingFrame(): Option<int>
      reads this
    {
      if inertia.Some? && inertia.value != 0 then inertia else None
    }

    /** `resetView`: cancel the pending inertia frame, then zoom 1 and offset 0. */
    method ResetView()
      modifies this
      ensures ViewReset()
      ensures cancelled == old(cancelled) + (if old(PendingFrame()).Some? then [old(PendingFrame()).value] else [])
      ensures inertia == old(inertia)
      ensures currentIndex == old(currentIndex) && detailsExpanded == old(detailsExpanded) && media == old(media)
    {
      if inertia.Some? && inertia.value != 0 {
        cancelled := cancelled + [inertia.value];
      }
      zoom := 1.0;
      x := 0.0;
      y := 0.0;
    }

    /** `nextImage`: on a non-empty gallery, one image on and the view reset. */
    method NextImage(project: Option<PortfolioGrid.Project>)
      modifies this
      ensures var n := |ProjectModal.Gallery(project, old(media))|;
        currentIndex == ProjectModal.NextIndex(old(currentIndex), n)
        && (n > 0 ==> ViewReset())
        && (n == 0 ==> zoom == old(zoom) && x == old(x) && y == old(y) && cancelled == old(cancelled))
      ensures detailsExpanded == old(detailsExpanded) && media == old(media) && inertia == old(inertia)
    {
      var n := |ProjectModal.Gallery(project, media)|;
      if n == 0 {
        return;
      }
      currentIndex := ProjectModal.JsRem(currentIndex + 1, n);
      ResetView();
    }

    /** `prevImage`: on a non-empty gallery, one image back and the view reset. */
    method PrevImage(project: Option<PortfolioGrid.Project>)
      modifies this
      ensures var n := |ProjectModal.Gallery(project, old(media))|;
        currentIndex == ProjectModal.PrevIndex(old(currentIndex), n)
        && (n > 0 ==> ViewReset())
        && (n == 0 ==> zoom == old(zoom) && x == old(x) && y == old(y) && cancelled == old(cancelled))
      ensures detailsExpanded == old(detailsExpanded) && media == old(media) && inertia == old(inertia)
    {
      var n := |ProjectModal.Gallery(project, media)|;
      if n == 0 {
        return;
      }
      currentIndex := ProjectModal.JsRem(currentIndex - 1 + n, n);
      ResetView();
    }

    /** The effect on opening or a change of project: first image, details folded, view reset. */
    method OnOpen(isOpen: bool, project: Option<PortfolioGrid.Project>)
      modifies this
      ensures isOpen && project.Some? ==> currentIndex == 0 && !detailsExpanded && ViewReset()
      ensures !(isOpen && project.Some?) ==>
        currentIndex == old(currentIndex) && detailsExpanded == old(detailsExpanded)
        && zoom == old(zoom) && x == old(x) && y == old(y) && cancelled == old(cancelled)
      ensures media == old(media) && inertia == old(inertia)
    {
      if isOpen && project.Some? {
        currentIndex := 0;
        detailsExpanded := false;
        ResetView();
      }
    }

    /**
     * A gallery load settling: `setMedia` with the loaded gallery or the cover fallback. It
     * runs for whichever project the load was started for, whether or not the modal is
     * still open on it.
     */
    method OnGalleryLoaded(request: PortfolioGrid.Project, load: Option<Galleries.GalleryJson>)
      modifies this
      ensures media == GalleryAfterLoad(request, load)
      ensures currentIndex == old(currentIndex) && detailsExpanded == old(detailsExpanded)
      ensures zoom == old(zoom) && x == old(x) && y == old(y) && inertia == old(inertia) && cancelled == old(cancelled)
    {
      media := GalleryAfterLoad(request, load);
    }

    /** The details button: `setDetailsExpanded((v) => !v)`. */
    method ToggleDetails()
      modifies this
      ensures detailsExpanded == !old(detailsExpanded)
      ensures currentIndex == old(currentIndex) && media == old(media)
      ensures zoom == old(zoom) && x == old(x) && y == old(y) && inertia == old(inertia) && cancelled == old(cancelled)
    {
      detailsExpanded := !detailsExpanded;
    }

    /** A double click on the image resets the view. */
    method OnDoubleClick()
      modifies this
      ensures ViewReset()
      ensures cancelled == old(cancelled) + (if old(PendingFrame()).Some? then [old(PendingFrame()).value] else [])
      ensures currentIndex == old(currentIndex) && detailsExpanded == old(detailsExpanded) && media == old(media)
      ensures inertia == old(inertia)
    {
      ResetView();
    }
  }
}
