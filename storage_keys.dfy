/** Object-store keys built by the listing workflow (one per uploaded listing photo) and by the
    avatar upload, and the file-extension rule they share. */
module StorageKeys {
  import opened Text

  /** `name.split('.').pop()`: the text after the last `.` of a file name, or the whole name. */
  function Extension(name: string): string {
    LastPiece(name, '.')
  }

  /** The extension is the dot-free tail of the name that follows its last `.`; a name without a
      `.` is its own extension. */
  lemma ExtensionIsAfterLastDot(name: string)
    ensures var ext := Extension(name);
      && '.' !in ext
      && |ext| <= |name| && name[|name| - |ext|..] == ext
      && (|ext| < |name| ==> name[|name| - |ext| - 1] == '.')
      && (ext == name <==> '.' !in name)
  {
    LastPieceIsAfterLastSeparator(name, '.');
  }

  /** `listings/{listingId}/`: the folder that namespaces a listing's photos. */
  function ListingFolder(listingId: nat): string {
    "listings/" + Decimal(listingId) + "/"
  }

  /** `listings/{listingId}/{userId}-{now}-{index}.{ext}` */
  function ListingImageKey(listingId: nat, userId: string, now: nat, index: nat, ext: string): string {
    ListingFolder(listingId) + userId + "-" + Decimal(now) + "-" + Decimal(index) + "." + ext
  }

  /** `avatars/{userId}-{now}.{ext}` */
  function AvatarKey(userId: string, now: nat, ext: string): string {
    "avatars/" + userId + "-" + Decimal(now) + "." + ext
  }

  /** A listing photo's key lies in that listing's folder. */
  lemma ListingImageKeyInFolder(listingId: nat, userId: string, now: nat, index: nat, ext: string)
    ensures var key := ListingImageKey(listingId, userId, now, index, ext);
      |ListingFolder(listingId)| < |key| && key[..|ListingFolder(listingId)|] == ListingFolder(listingId)
  {
    var folder := ListingFolder(listingId);
    var rest := userId + "-" + Decimal(now) + "-" + Decimal(index) + "." + ext;
    assert ListingImageKey(listingId, userId, now, index, ext) == folder + rest;
  }

  /** A photo key read as the owner's prefix followed by `{now}-{index}.{ext}`. */
  lemma ListingImageKeyParts(listingId: nat, userId: string, now: nat, index: nat, ext: string)
    ensures ListingImageKey(listingId, userId, now, index, ext)
         == (ListingFolder(listingId) + userId + "-") + (Decimal(now) + "-" + (Decimal(index) + "." + ext))
  {
  }

  /** Equal texts that start with the same prefix agree after it. */
  lemma DropPrefix(prefix: string, r1: string, r2: string)
    requires prefix + r1 == prefix + r2
    ensures r1 == r2
  {
    assert r1 == (prefix + r1)[|prefix|..];
    assert r2 == (prefix + r2)[|prefix|..];
  }

  /** For one listing and one owner, a photo key determines the timestamp, the index and the
      extension it was built from: two photos with different indices never share a key, whatever
      their timestamps and extensions. */
  lemma ListingImageKeyInjective(listingId: nat, userId: string,
                                 now1: nat, index1: nat, ext1: string,
                                 now2: nat, index2: nat, ext2: string)
    requires ListingImageKey(listingId, userId, now1, index1, ext1)
          == ListingImageKey(listingId, userId, now2, index2, ext2)
    ensures now1 == now2 && index1 == index2 && ext1 == ext2
  {
    var tail1 := Decimal(index1) + "." + ext1;
    var tail2 := Decimal(index2) + "." + ext2;
    ListingImageKeyParts(listingId, userId, now1, index1, ext1);
    ListingImageKeyParts(listingId, userId, now2, index2, ext2);
    DropPrefix(ListingFolder(listingId) + userId + "-", Decimal(now1) + "-" + tail1, Decimal(now2) + "-" + tail2);
    DecimalHasNoSeparators(now1);
    DecimalHasNoSeparators(now2);
    CutAtSeparator(Decimal(now1), tail1, Decimal(now2), tail2, '-');
    DecimalHasNoSeparators(index1);
    DecimalHasNoSeparators(index2);
    CutAtSeparator(Decimal(index1), ext1, Decimal(index2), ext2, '.');
    DecimalInjective(now1, now2);
    DecimalInjective(index1, index2);
  }

  /** For one user, an avatar key determines its timestamp and extension: uploads at different
      milliseconds get different keys, so a new avatar never overwrites an old file. */
  lemma AvatarKeyInjective(userId: string, now1: nat, ext1: string, now2: nat, ext2: string)
    requires AvatarKey(userId, now1, ext1) == AvatarKey(userId, now2, ext2)
    ensures now1 == now2 && ext1 == ext2
  {
    var prefix := "avatars/" + userId + "-";
    var rest1 := Decimal(now1) + "." + ext1;
    var rest2 := Decimal(now2) + "." + ext2;
    assert AvatarKey(userId, now1, ext1) == prefix + rest1;
    assert AvatarKey(userId, now2, ext2) == prefix + rest2;
    assert rest1 == (prefix + rest1)[|prefix|..] == rest2;
    DecimalHasNoSeparators(now1);
    DecimalHasNoSeparators(now2);
    CutAtSeparator(Decimal(now1), ext1, Decimal(now2), ext2, '.');
    DecimalInjective(now1, now2);
  }

  /** Avatars and listing photos share one bucket but never one key. */
  lemma AvatarAndListingKeysDiffer(userId: string, now: nat, ext: string,
                                   listingId: nat, owner: string, now2: nat, index: nat, ext2: string)
    ensures AvatarKey(userId, now, ext) != ListingImageKey(listingId, owner, now2, index, ext2)
  {
    var a := AvatarKey(userId, now, ext);
    var a' := userId + "-" + Decimal(now) + "." + ext;
    assert a == "avatars/" + a';
    var l := ListingImageKey(listingId, owner, now2, index, ext2);
    var l' := Decimal(listingId) + "/" + owner + "-" + Decimal(now2) + "-" + Decimal(index) + "." + ext2;
    assert l == "listings/" + l';
    assert a[0] == 'a' && l[0] == 'l';
  }
}
