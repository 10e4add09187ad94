/**
 * Deleting a gallery image and a media-library item. Both find the first entry
 * with the requested id and splice out that one entry; removing the files from
 * disk is not modelled (its failure is only logged).
 */
module Media {
  import opened Wrappers
  import opened Json
  import Seqs

  datatype GalleryImage = GalleryImage(
    id: string,
    filename: string,
    originalName: string,
    description: string,
    uploadDate: string,
    path: string)

  datatype MediaItem = MediaItem(
    id: string,
    filename: string,
    originalName: string,
    title: string,
    tags: seq<string>,
    kind: string,
    size: nat,
    uploadDate: string,
    path: string,
    thumbnail: Option<string>)

  /** A 200 reply with its message, or a 404 with its error. */
  datatype Reply = Deleted(message: string) | NotFound(error: string)

  datatype GalleryStep = GalleryStep(reply: Reply, images: seq<GalleryImage>)
  datatype MediaStep = MediaStep(reply: Reply, items: seq<MediaItem>)

  // ---------------------------------------------------------------------
  // POST /admin/delete-gallery-image
  // ---------------------------------------------------------------------

  /** `img.id === imageId`: ids are strings, so only a string in the body can match. */
  predicate IsImage(img: GalleryImage, imageId: Option<JsonValue>) {
    imageId == Some(JStr(img.id))
  }

  /** The position of the first image with the requested id, or -1. */
  function ImageIndex(images: seq<GalleryImage>, imageId: Option<JsonValue>): (i: int)
    ensures -1 <= i < |images|
    ensures i >= 0 ==> IsImage(images[i], imageId)
    ensures forall j :: 0 <= j < |images| && (i < 0 || j < i) ==> !IsImage(images[j], imageId)
  {
    Seqs.FindIndex(images, (img: GalleryImage) => IsImage(img, imageId))
  }

  /** How many images carry the requested id. */
  function ImageCount(images: seq<GalleryImage>, imageId: Option<JsonValue>): nat {
    Seqs.Count(images, (img: GalleryImage) => IsImage(img, imageId))
  }

  function DeleteGalleryImage(images: seq<GalleryImage>, imageId: Option<JsonValue>): (r: GalleryStep)
    ensures r.reply.Deleted? <==> exists i :: 0 <= i < |images| && IsImage(images[i], imageId)
    ensures r.reply.NotFound? ==> r == GalleryStep(NotFound("Image not found"), images)
    ensures r.reply.Deleted? ==>
              var i := ImageIndex(images, imageId);
              && |r.images| == |images| - 1
              && r.images[..i] == images[..i]
              && r.images[i..] == images[i + 1..]
  {
    var i := ImageIndex(images, imageId);
    if i == -1 then GalleryStep(NotFound("Image not found"), images)
    else GalleryStep(Deleted("Image deleted successfully!"), Seqs.RemoveAt(images, i))
  }

  /** Only the first image with the id goes: the number carrying it drops by exactly one, others keep theirs. */
  lemma GalleryDeleteRemovesOne(images: seq<GalleryImage>, imageId: Option<JsonValue>, other: Option<JsonValue>)
    requires DeleteGalleryImage(images, imageId).reply.Deleted?
    ensures ImageCount(DeleteGalleryImage(images, imageId).images, imageId) == ImageCount(images, imageId) - 1
    ensures other != imageId ==>
              ImageCount(DeleteGalleryImage(images, imageId).images, other) == ImageCount(images, other)
  {
    var i := ImageIndex(images, imageId);
    Seqs.CountRemoveAt(images, i, (img: GalleryImage) => IsImage(img, imageId));
    Seqs.CountRemoveAt(images, i, (img: GalleryImage) => IsImage(img, other));
  }

  // ---------------------------------------------------------------------
  // DELETE /media/:id
  // ---------------------------------------------------------------------

  /** The position of the first item with the id, or -1. */
  function ItemIndex(items: seq<MediaItem>, mediaId: string): (i: int)
    ensures -1 <= i < |items|
    ensures i >= 0 ==> items[i].id == mediaId
    ensures forall j :: 0 <= j < |items| && (i < 0 || j < i) ==> items[j].id != mediaId
  {
    Seqs.FindIndex(items, (m: MediaItem) => m.id == mediaId)
  }

  /** How many items carry the id. */
  function ItemCount(items: seq<MediaItem>, mediaId: string): nat {
    Seqs.Count(items, (m: MediaItem) => m.id == mediaId)
  }

  /** The route parameter is always a string. */
  function DeleteMedia(items: seq<MediaItem>, mediaId: string): (r: MediaStep)
    ensures r.reply.Deleted? <==> exists i :: 0 <= i < |items| && items[i].id == mediaId
    ensures r.reply.NotFound? ==> r == MediaStep(NotFound("Media not found"), items)
    ensures r.reply.Deleted? ==>
              var i := ItemIndex(items, mediaId);
              && |r.items| == |items| - 1
              && r.items[..i] == items[..i]
              && r.items[i..] == items[i + 1..]
  {
    var i := ItemIndex(items, mediaId);
    if i == -1 then MediaStep(NotFound("Media not found"), items)
    else MediaStep(Deleted("Media deleted successfully"), Seqs.RemoveAt(items, i))
  }

  /** Only the first item with the id goes: the number carrying it drops by exactly one, others keep theirs. */
  lemma MediaDeleteRemovesOne(items: seq<MediaItem>, mediaId: string, other: string)
    requires DeleteMedia(items, mediaId).reply.Deleted?
    ensures ItemCount(DeleteMedia(items, mediaId).items, mediaId) == ItemCount(items, mediaId) - 1
    ensures other != mediaId ==> ItemCount(DeleteMedia(items, mediaId).items, other) == ItemCount(items, other)
  {
    var i := ItemIndex(items, mediaId);
    Seqs.CountRemoveAt(items, i, (m: MediaItem) => m.id == mediaId);
    Seqs.CountRemoveAt(items, i, (m: MediaItem) => m.id == other);
  }

  /** With unique ids, a deleted item is gone for good: deleting it again is a 404. */
  lemma MediaDeleteTwiceNotFound(items: seq<MediaItem>, mediaId: string)
    requires ItemCount(items, mediaId) == 1
    ensures DeleteMedia(items, mediaId).reply.Deleted?
    ensures DeleteMedia(DeleteMedia(items, mediaId).items, mediaId).reply.NotFound?
  {
    Seqs.CountZero(items, (m: MediaItem) => m.id == mediaId);
    MediaDeleteRemovesOne(items, mediaId, mediaId);
    var after := DeleteMedia(items, mediaId).items;
    Seqs.CountZero(after, (m: MediaItem) => m.id == mediaId);
  }
}
