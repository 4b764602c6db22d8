/**
  The `AmiAssociation` object: it holds the EC2 client and runs the scan
  loops, each of which fills a local accumulator page by page. Every method
  is proved to compute the function of `AmiSpec` that states what it returns.
 */
module Ami {
  import opened PyStr
  import opened Seqs
  import opened Pages
  import opened PyDict
  import opened AmiSpec

  class AmiAssociation {
    /** The EC2 client, built once and only read afterwards. */
    const ec2: Ec2

    constructor(ec2: Ec2)
      ensures this.ec2 == ec2
    {
      this.ec2 := ec2;
    }

    /** The image ids of all instances, each once, in first-seen order. */
    method GetAllInstanceAmis() returns (r: Result<seq<string>, Error>)
      ensures r == ScanAmis(ec2.instanceImageIds)
      ensures r.Ok? ==> NoDup(r.value)
    {
      var listing := ec2.instanceImageIds;
      var amiIds: seq<string> := [];
      var i := 0;
      while i < |listing|
        invariant 0 <= i <= |listing|
        invariant Collect(listing[..i]).Ok?
        invariant amiIds == Dedup(ScannedPieces(Collect(listing[..i]).value))
      {
        match listing[i] {
          case Raise(exc) =>
            CollectStopsAt(listing, i);
            return Err(Reraised(Stage.GetAllInstanceAmis, exc));
          case Page(values) =>
            ghost var before := ScannedPieces(Collect(listing[..i]).value);
            var amiOutput := Join(values);
            var outputIds := Split(amiOutput);
            var j := 0;
            assert before + outputIds[..0] == before;
            while j < |outputIds|
              invariant 0 <= j <= |outputIds|
              invariant amiIds == Dedup(before + outputIds[..j])
            {
              var ami := outputIds[j];
              DedupStep(before, outputIds, j);
              if ami !in amiIds {
                amiIds := amiIds + [ami];
              }
              j := j + 1;
            }
            assert outputIds[..j] == outputIds;
            CollectStep(listing, i);
            ScannedPiecesSnoc(Collect(listing[..i]).value, values);
        }
        i := i + 1;
      }
      assert listing[..i] == listing;
      return Ok(amiIds);
    }

    /** `dict(image -> getAmiInfo(image))` over `images`, in order. */
    method CreateDict(images: seq<string>) returns (r: Result<Dict<AmiInfo>, Error>)
      ensures r == ReportOf(Describer(ec2), images)
    {
      var imageDict: Dict<AmiInfo> := Empty();
      var i := 0;
      while i < |images|
        invariant 0 <= i <= |images|
        invariant ReportOf(Describer(ec2), images[..i]) == Ok(imageDict)
      {
        var image := images[i];
        assert images[..i + 1][..i] == images[..i];
        var imageInfo := GetAmiInfo(image);
        match imageInfo {
          case Err(e) =>
            ReportOfStopsAt(Describer(ec2), images, i);
            return Err(e);
          case Ok(info) =>
            imageDict := imageDict.Set(image, info);
        }
        i := i + 1;
      }
      assert images[..i] == images;
      return Ok(imageDict);
    }

    /** The ids of the instances launched from `ami`, page by page. */
    method GetAssociatedInstances(ami: string) returns (r: Result<seq<string>, Error>)
      ensures r == FindInstances(ec2.instancesUsing(ami))
    {
      var listing := ec2.instancesUsing(ami);
      var instanceIds: seq<string> := [];
      var i := 0;
      while i < |listing|
        invariant 0 <= i <= |listing|
        invariant Collect(listing[..i]).Ok?
        invariant instanceIds == AssociatedIds(Collect(listing[..i]).value)
      {
        match listing[i] {
          case Raise(exc) =>
            CollectStopsAt(listing, i);
            return Err(Reraised(Stage.GetAssociatedInstances, exc));
          case Page(values) =>
            ghost var pages := Collect(listing[..i]).value;
            ghost var before := instanceIds;
            var instanceOutput := Join(values);
            if ',' in instanceOutput {
              var instances := Split(instanceOutput);
              instanceIds := instanceIds + instances;
            } else if instanceOutput != "" {
              instanceIds := instanceIds + [instanceOutput];
            }
            assert instanceIds == before + PageInstances(values);
            CollectStep(listing, i);
            AssociatedIdsSnoc(pages, values);
        }
        i := i + 1;
      }
      assert listing[..i] == listing;
      return Ok(instanceIds);
    }

    /** The record of `ami`: its four descriptive fields, each the joined
        projection or `"null"`, and the instances launched from it. */
    method GetAmiInfo(ami: string) returns (r: Result<AmiInfo, Error>)
      ensures r == AmiInfoOf(ec2, ami)
    {
      var response := ec2.describeImage(ami);
      if response.Err? {
        return Err(Uncaught(response.error));
      }
      var amiDesc := JoinOrNull(response.value.descriptions);
      var amiName := JoinOrNull(response.value.names);
      var amiLoc := JoinOrNull(response.value.locations);
      var amiOwn := JoinOrNull(response.value.ownerIds);
      var instanceIds := GetAssociatedInstances(ami);
      if instanceIds.Err? {
        return Err(instanceIds.error);
      }
      return Ok(AmiInfo(amiDesc, amiName, amiLoc, amiOwn, instanceIds.value));
    }

    /** The dictionary `getAmis` serialises: one record per image in use. */
    method GatherReport() returns (r: Result<Dict<AmiInfo>, Error>)
      ensures r == Gather(ec2)
      ensures r.Ok? ==> ScanAmis(ec2.instanceImageIds).Ok?
      ensures r.Ok? ==> r.value.keys == ScanAmis(ec2.instanceImageIds).value
      ensures r.Ok? ==> |r.value.entries| == |r.value.keys|
    {
      var images := GetAllInstanceAmis();
      if images.Err? {
        return Err(images.error);
      }
      r := CreateDict(images.value);
      if r.Ok? {
        GatherShape(ec2);
      }
    }
  }
}
