/** The manifest plugin: after the compilation's assets are summarised it
    lists every asset other than the manifest itself, with its size and the
    compilation hash, and emits that list under the manifest's file name.
    The timestamp is a parameter; the JSON text is not modelled. */
module Manifest {
  import opened Common

  const DefaultFilename := "manifest.json"

  /** An asset of the compilation, in the order `for ... in` visits them. */
  datatype Asset = Asset(name: string, size: nat)

  datatype Entry = Entry(name: string, size: nat, hash: string)

  datatype ManifestDoc = ManifestDoc(generatedAt: string, files: seq<Entry>)

  /** `{ filename: 'manifest.json', ...options }`. */
  function Filename(option: Option<string>): (r: string)
    ensures option.Some? ==> r == option.value
    ensures option.None? ==> r == DefaultFilename
  {
    OrElse(option, DefaultFilename)
  }

  /** The `files` list: one entry per asset not named `filename`, in asset
      order. */
  function ManifestFiles(assets: seq<Asset>, filename: string, hash: string): (r: seq<Entry>)
    ensures |r| <= |assets|
    ensures forall e :: e in r ==> e.name != filename && e.hash == hash && Asset(e.name, e.size) in assets
    ensures forall a :: a in assets && a.name != filename ==> Entry(a.name, a.size, hash) in r
    decreases |assets|
  {
    if |assets| == 0 then []
    else
      var rest := ManifestFiles(assets[1..], filename, hash);
      assert forall a :: a in assets[1..] ==> a in assets;
      assert forall a :: a in assets ==> a == assets[0] || a in assets[1..];
      if assets[0].name != filename then [Entry(assets[0].name, assets[0].size, hash)] + rest
      else rest
  }

  /** Listing keeps the asset order: the list of a concatenation is the
      concatenation of the lists. */
  lemma {:induction false} ManifestFilesAppend(a: seq<Asset>, b: seq<Asset>, filename: string, hash: string)
    ensures ManifestFiles(a + b, filename, hash) == ManifestFiles(a, filename, hash) + ManifestFiles(b, filename, hash)
    decreases |a|
  {
    if |a| == 0 {
      assert a + b == b;
    } else {
      assert (a + b)[1..] == a[1..] + b;
      ManifestFilesAppend(a[1..], b, filename, hash);
    }
  }

  function Names(assets: seq<Asset>): (r: seq<string>)
    ensures |r| == |assets|
    ensures forall i :: 0 <= i < |assets| ==> r[i] == assets[i].name
  {
    seq(|assets|, i requires 0 <= i < |assets| => assets[i].name)
  }

  /** Asset names are the keys of `compilation.assets`, so they are distinct. */
  predicate DistinctNames(assets: seq<Asset>)
  {
    forall i, j :: 0 <= i < j < |assets| ==> assets[i].name != assets[j].name
  }

  /** Every asset but the manifest gets exactly one entry. */
  lemma {:induction false} ManifestFilesCount(assets: seq<Asset>, filename: string, hash: string)
    requires DistinctNames(assets)
    ensures |ManifestFiles(assets, filename, hash)| == |assets| - (if filename in Names(assets) then 1 else 0)
    decreases |assets|
  {
    if |assets| > 0 {
      var tail := assets[1..];
      assert DistinctNames(tail) by {
        forall i, j | 0 <= i < j < |tail|
          ensures tail[i].name != tail[j].name
        {
          assert tail[i] == assets[i + 1] && tail[j] == assets[j + 1];
        }
      }
      ManifestFilesCount(tail, filename, hash);
      assert Names(assets) == [assets[0].name] + Names(tail);
      if assets[0].name == filename {
        assert filename !in Names(tail) by {
          forall k | 0 <= k < |tail|
            ensures Names(tail)[k] != filename
          {
            assert tail[k] == assets[k + 1];
          }
        }
      }
    }
  }

  /** The manifest never lists itself: a previous manifest among the assets
      changes nothing. */
  lemma ManifestIgnoresItself(assets: seq<Asset>, filename: string, hash: string, size: nat)
    ensures ManifestFiles(assets + [Asset(filename, size)], filename, hash) == ManifestFiles(assets, filename, hash)
  {
    ManifestFilesAppend(assets, [Asset(filename, size)], filename, hash);
    assert [Asset(filename, size)][1..] == [];
  }

  /** The asset the plugin emits: its name and the manifest it holds. */
  datatype Emission = Emission(filename: string, manifest: ManifestDoc)

  /** One run of the `processAssets` hook; `generatedAt` is the ISO time
      of the run and `hash` the compilation hash. */
  function Generate(option: Option<string>, assets: seq<Asset>, hash: string, generatedAt: string): (r: Emission)
    ensures r.filename == Filename(option)
    ensures r.manifest.generatedAt == generatedAt
    ensures forall e :: e in r.manifest.files ==> e.name != r.filename && e.hash == hash
    ensures forall a :: a in assets ==> (a.name != r.filename <==> Entry(a.name, a.size, hash) in r.manifest.files)
  {
    var filename := Filename(option);
    Emission(filename, ManifestDoc(generatedAt, ManifestFiles(assets, filename, hash)))
  }
}
