/** p2pshare.py's cmd_share and storage.py's ShareIndex: how an owner builds and signs a manifest. */
module Sharing {
  import opened Bytes
  import opened Json
  import opened CryptoUtils
  import opened Base64
  import opened Protocol
  import opened Transfer
  import Network

  /** share_index.json, by file id. */
  class ShareIndex {
    var files: map<Str, SharedFile>

    constructor ()
      ensures files == map[]
    {
      files := map[];
    }

    method Add(f: SharedFile)
      modifies this
      ensures files == old(files)[f.fileId := f]
    {
      files := files[f.fileId := f];
    }
  }

  const SLASH: codepoint := 47

  /** `os.path.basename` */
  function Basename(path: Str): Str
  {
    if path == [] || path[|path| - 1] == SLASH then [] else Basename(path[..|path| - 1]) + [path[|path| - 1]]
  }

  /** The name is what follows the last slash. */
  lemma {:induction false} BasenameIs(path: Str) returns (dir: Str)
    ensures path == dir + Basename(path) && (dir == [] || dir[|dir| - 1] == SLASH) && SLASH !in Basename(path)
  {
    if path == [] || path[|path| - 1] == SLASH {
      dir := path;
    } else {
      var m, last := path[..|path| - 1], path[|path| - 1];
      dir := BasenameIs(m);
      assert path == m + [last];
      Assoc(dir, Basename(m), [last]);
    }
  }

  /** What one `share` command sees: the bytes it hashes, and the size it reads separately. */
  datatype Shareable = Shareable(path: Str, data: Bytes, size: nat, fileId: Str, timestamp: Str)

  function ManifestFor(p: Prims, seed: Bytes, s: Shareable): Manifest
  {
    Manifest(JStr(s.fileId), JStr(Basename(s.path)), JStr(Fingerprint(p, p.publicKey(seed))),
             JStr(HexString(p.sha256(s.data))), JInt(s.size), JStr(s.timestamp))
  }

  function EntryFor(p: Prims, seed: Bytes, s: Shareable): SharedFile
  {
    SharedFile(s.fileId, Basename(s.path), s.path, HexString(p.sha256(s.data)), s.size, Fingerprint(p, p.publicKey(seed)),
               B64e(p.sign(seed, CanonicalManifest(ManifestFor(p, seed, s)))), s.timestamp)
  }

  /** The index entry, field by field: the name after the last slash, the hexadecimal SHA-256 of the bytes, the size read,
      the owner's fingerprint, and the owner's signature on the manifest of just these. */
  lemma EntryIs(p: Prims, seed: Bytes, s: Shareable)
    ensures var f, owner := EntryFor(p, seed, s), HexString(p.sha256(p.publicKey(seed)));
            && f.fileId == s.fileId && f.path == s.path && f.filename == Basename(s.path) && f.size == s.size
            && f.sha256Hex == HexString(p.sha256(s.data)) && f.owner == owner && f.timestamp == s.timestamp
            && f.manifestSig == B64e(p.sign(seed, CanonicalManifest(Manifest(
                 JStr(s.fileId), JStr(Basename(s.path)), JStr(owner), JStr(HexString(p.sha256(s.data))), JInt(s.size),
                 JStr(s.timestamp)))))
  {
    hide CanonicalManifest, B64e, HexString;
  }

  /** cmd_share; None when the path is not a file. */
  method CmdShare(index: ShareIndex, p: Prims, seed: Bytes, s: Option<Shareable>)
    modifies index
    ensures index.files == match s { case None => old(index.files)
                                     case Some(f) => old(index.files)[f.fileId := EntryFor(p, seed, f)] }
  {
    hide Fingerprint, HexString, CanonicalManifest, B64e;
    if s == None {
      return;
    }
    var filename := Basename(s.value.path);
    var sha := HexString(p.sha256(s.value.data));
    var owner := Fingerprint(p, p.publicKey(seed));
    var manifest := CanonicalManifest(Manifest(JStr(s.value.fileId), JStr(filename), JStr(owner), JStr(sha),
                                               JInt(s.value.size), JStr(s.value.timestamp)));
    index.Add(SharedFile(s.value.fileId, filename, s.value.path, sha, s.value.size, owner, B64e(p.sign(seed, manifest)),
                         s.value.timestamp));
  }

  /** A receiver that knows the owner's key accepts the manifest of a shared file, whoever offers it and under
      whichever message id and chunk count. */
  lemma SharedIsAccepted(p: Prims, seed: Bytes, s: Shareable, total: J, transferId: Str)
    requires SignaturesVerify(p)
    ensures var f := EntryFor(p, seed, s);
            ManifestAccepted(p, Some(p.publicKey(seed)),
                             Offer(f.fileId, JStr(f.filename), JStr(f.sha256Hex), total, JInt(f.size), f.owner,
                                   JStr(f.manifestSig), JStr(f.timestamp), transferId))
  {
    hide CanonicalManifest, B64e, B64d, Fingerprint, HexString;
    RoundTrip(p.sign(seed, CanonicalManifest(ManifestFor(p, seed, s))));
  }

  /** cmd_share by an honest owner is the ShareFile step of Network: the signature in the new index entry is on the one
      text whose issue that step records. */
  lemma SharingIsAStep(n: Network.Net, w: Network.World, seed: Bytes, s: Shareable)
    requires n.p.publicKey(seed) in n.honest
    ensures var pub, f := n.p.publicKey(seed), EntryFor(n.p, seed, s);
            var step := Network.ShareFile(Network.Share(pub, s.fileId, f.filename, s.size, s.timestamp, s.data));
            var text := CanonicalManifest(Manifest(JStr(f.fileId), JStr(f.filename), JStr(f.owner), JStr(f.sha256Hex),
                                                   JInt(f.size), JStr(f.timestamp)));
            && Network.Enabled(n, w, step) && B64d(f.manifestSig) == Some(n.p.sign(seed, text))
            && Network.Apply(n, w, step).issued == w.issued + {Network.Issued(pub, text)}
  {
    hide CanonicalManifest, Fingerprint, HexString, B64e, B64d;
    RoundTrip(n.p.sign(seed, CanonicalManifest(ManifestFor(n.p, seed, s))));
  }
}
