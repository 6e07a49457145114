/** The entities the frame handler works on: point and line features with a
    persistent track ID and an inlier flag, the k=2 descriptor matches that
    drive association, and the discipline track IDs obey. */
module Features {

  /** The track ID a feature carries before it has been associated. */
  const Unassigned: int := -1

  datatype Pixel = Pixel(u: real, v: real)

  /** Homogeneous line equation a*u + b*v + c = 0. */
  datatype LineEq = LineEq(a: real, b: real, c: real)

  /** A feature of either modality: its persistent track ID, its inlier
      flag, its own geometry `geom` and the geometry observed for it in the
      other frame once it has been matched, `obs`. */
  datatype Feature<G, O> = Feature(idx: int, inlier: bool, geom: G, obs: O)

  /** Point geometry: left-image pixel and stereo disparity. */
  datatype PointGeom = PointGeom(pl: Pixel, disp: real)

  /** Line geometry: start/end pixels, orientation and line equation. */
  datatype LineGeom = LineGeom(spl: Pixel, epl: Pixel, angle: real, le: LineEq)

  /** What a matched line records of its counterpart. */
  datatype LineObs = LineObs(spl: Pixel, epl: Pixel, le: LineEq)

  type PointFeature = Feature<PointGeom, Pixel>
  type LineFeature = Feature<LineGeom, LineObs>

  /** One row of a k=2 nearest-neighbour match list: the query and train
      indices of the best neighbour and the distances of the best and the
      second-best neighbour. */
  datatype KnnMatch = KnnMatch(query: int, train: int, best: real, second: real)

  predicate AllUnassigned<G, O>(fs: seq<Feature<G, O>>)
  {
    forall i :: 0 <= i < |fs| ==> fs[i].idx == Unassigned
  }

  predicate NoneUnassigned<G, O>(fs: seq<Feature<G, O>>)
  {
    forall i :: 0 <= i < |fs| ==> fs[i].idx != Unassigned
  }

  /** The track-ID discipline of one frame and its modality counter: every
      ID is unassigned or drawn from [0, counter), and no two features carry
      the same assigned ID. */
  predicate TrackIds<G, O>(fs: seq<Feature<G, O>>, counter: int)
  {
    && 0 <= counter
    && (forall i :: 0 <= i < |fs| ==> fs[i].idx == Unassigned || 0 <= fs[i].idx < counter)
    && (forall i, j :: 0 <= i < |fs| && 0 <= j < |fs| && i != j && fs[i].idx != Unassigned ==>
          fs[i].idx != fs[j].idx)
  }

  /** Feature and geometry agree position by position; IDs, flags and
      observations may differ. */
  ghost predicate SameGeometry<G, O>(a: seq<Feature<G, O>>, b: seq<Feature<G, O>>)
  {
    |a| == |b| && forall i :: 0 <= i < |a| ==> a[i].geom == b[i].geom
  }

  /** Feature by feature, only the inlier flags may differ. */
  ghost predicate FlagsOnlyDiffer<G, O>(a: seq<Feature<G, O>>, b: seq<Feature<G, O>>)
  {
    |a| == |b| && forall i :: 0 <= i < |a| ==> a[i].idx == b[i].idx && a[i].geom == b[i].geom && a[i].obs == b[i].obs
  }

  /** Feature by feature, only the track IDs may differ. */
  ghost predicate IdsOnlyDiffer<G, O>(a: seq<Feature<G, O>>, b: seq<Feature<G, O>>)
  {
    |a| == |b| && forall i :: 0 <= i < |a| ==> a[i].inlier == b[i].inlier && a[i].geom == b[i].geom && a[i].obs == b[i].obs
  }

  /** Indices that address features of a frame with `n` features. */
  predicate IndicesBelow(idxs: seq<nat>, n: int)
  {
    forall k :: 0 <= k < |idxs| ==> idxs[k] < n
  }

  predicate Distinct(idxs: seq<nat>)
  {
    forall k, l :: 0 <= k < |idxs| && 0 <= l < |idxs| && k != l ==> idxs[k] != idxs[l]
  }

  /** The inlier flags of the features a correspondence set refers to, in
      the set's order. */
  function InlierFlags<G, O>(fs: seq<Feature<G, O>>, idxs: seq<nat>): (flags: seq<bool>)
    requires IndicesBelow(idxs, |fs|)
    ensures |flags| == |idxs|
    ensures forall k :: 0 <= k < |idxs| ==> flags[k] == fs[idxs[k]].inlier
  {
    seq(|idxs|, k requires 0 <= k < |idxs| => fs[idxs[k]].inlier)
  }

  /** Store `flags` back into the features the correspondence set refers to. */
  function WriteFlags<G, O>(fs: seq<Feature<G, O>>, idxs: seq<nat>, flags: seq<bool>): (r: seq<Feature<G, O>>)
    requires IndicesBelow(idxs, |fs|) && |flags| == |idxs|
    ensures |r| == |fs|
    ensures forall i :: 0 <= i < |fs| ==>
      r[i].idx == fs[i].idx && r[i].geom == fs[i].geom && r[i].obs == fs[i].obs
    ensures forall i :: 0 <= i < |fs| && (forall k :: 0 <= k < |idxs| ==> idxs[k] != i) ==> r[i] == fs[i]
    decreases |idxs|
  {
    if |idxs| == 0 then fs
    else
      var rest := WriteFlags(fs, idxs[1..], flags[1..]);
      rest[idxs[0] := rest[idxs[0]].(inlier := flags[0])]
  }

  /** Reading back what was written gives the written flags, provided the
      set refers to each feature at most once. */
  lemma {:induction false} ReadAfterWrite<G, O>(fs: seq<Feature<G, O>>, idxs: seq<nat>, flags: seq<bool>)
    requires IndicesBelow(idxs, |fs|) && |flags| == |idxs| && Distinct(idxs)
    ensures InlierFlags(WriteFlags(fs, idxs, flags), idxs) == flags
    decreases |idxs|
  {
    if |idxs| > 0 {
      var tail := idxs[1..];
      assert Distinct(tail) by {
        forall k, l | 0 <= k < |tail| && 0 <= l < |tail| && k != l
          ensures tail[k] != tail[l]
        {
          assert tail[k] == idxs[k + 1] && tail[l] == idxs[l + 1];
        }
      }
      ReadAfterWrite(fs, tail, flags[1..]);
      var rest := WriteFlags(fs, tail, flags[1..]);
      var r := WriteFlags(fs, idxs, flags);
      forall k | 0 <= k < |idxs|
        ensures r[idxs[k]].inlier == flags[k]
      {
        if k > 0 {
          assert idxs[k] == tail[k - 1] && idxs[k] != idxs[0];
          assert InlierFlags(rest, tail)[k - 1] == flags[1..][k - 1];
        }
      }
    }
  }

  /** Writing back the flags just read changes nothing. */
  lemma {:induction false} WriteWhatWasRead<G, O>(fs: seq<Feature<G, O>>, idxs: seq<nat>)
    requires IndicesBelow(idxs, |fs|)
    ensures WriteFlags(fs, idxs, InlierFlags(fs, idxs)) == fs
    decreases |idxs|
  {
    if |idxs| > 0 {
      var flags := InlierFlags(fs, idxs);
      assert InlierFlags(fs, idxs[1..]) == flags[1..];
      WriteWhatWasRead(fs, idxs[1..]);
      assert fs[idxs[0] := fs[idxs[0]].(inlier := flags[0])] == fs;
    }
  }
}
