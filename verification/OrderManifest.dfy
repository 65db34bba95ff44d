/**
 An order's portal: the system images its delivery asks for, the manifest built from them and the
 archived files, and the zip made from that manifest, tied to what the order's run downloads.
 */
module OrderManifest {
  import opened Wrappers
  import opened UniquePath
  import opened Manifest
  import opened Bundle
  import opened Orchestrator

  /** The configured downloads and the sizes S3 and the web answered; 0 for a checksum that is not there. */
  datatype Images = Images(
    apkUrl: string, apkSize: int, isoSize: int, templateSize: int, gatewayUrl: string, gatewaySize: int, shaSize: int)

  function IsoRows(delivery: Delivery, images: Images): seq<RowValue> {
    if delivery.isoUrl.None? then [] else
      [RowValue("Appliance Installer", [File("ISO", images.isoSize, delivery.isoUrl.value)])]
  }

  function ApkRow(images: Images): RowValue {
    RowValue("EMS Field Client", [File("APK", images.apkSize, images.apkUrl)])
  }

  function GatewayFiles(images: Images): seq<File> {
    [File("TGZ", images.gatewaySize, images.gatewayUrl)]
    + if images.shaSize > 0 then [File("SHA256", images.shaSize, images.gatewayUrl + ".sha256")] else []
  }

  function CloudRows(delivery: Delivery, images: Images): seq<RowValue> {
    if delivery.templateUrl.None? then [] else
      [RowValue("CloudFormation Template", [File("YAML", images.templateSize, delivery.templateUrl.value)]),
       RowValue("Industrial Gateway", GatewayFiles(images))]
  }

  /** `_build_system_artifacts`: the ISO if there is one, the app, and for the cloud the template and the gateway. */
  function SystemRows(delivery: Delivery, images: Images): seq<RowValue> {
    IsoRows(delivery, images) + [ApkRow(images)] + CloudRows(delivery, images)
  }

  lemma AppendRow(rows: seq<Row>, row: Row)
    ensures Values(rows + [row]) == Values(rows) + [Value(row)]
  {
    ValuesSnoc(rows, row);
  }

  /** A delivery's URLs, when it has them, are never empty. */
  method BuildSystemArtifacts(delivery: Delivery, images: Images) returns (rows: seq<Row>)
    ensures Values(rows) == SystemRows(delivery, images)
    ensures fresh(rows)
  {
    rows := [];
    if delivery.isoUrl.Some? {
      var iso := new Row("Appliance Installer", [File("ISO", images.isoSize, delivery.isoUrl.value)]);
      AppendRow(rows, iso);
      rows := rows + [iso];
    }
    assert Values(rows) == IsoRows(delivery, images);
    var apk := new Row("EMS Field Client", [File("APK", images.apkSize, images.apkUrl)]);
    AppendRow(rows, apk);
    rows := rows + [apk];
    if delivery.templateUrl.Some? {
      var template := new Row("CloudFormation Template",
          [File("YAML", images.templateSize, delivery.templateUrl.value)]);
      AppendRow(rows, template);
      rows := rows + [template];
      var files := [File("TGZ", images.gatewaySize, images.gatewayUrl)];
      if images.shaSize > 0 {
        files := files + [File("SHA256", images.shaSize, images.gatewayUrl + ".sha256")];
      }
      assert files == GatewayFiles(images);
      var gateway := new Row("Industrial Gateway", files);
      AppendRow(rows, gateway);
      rows := rows + [gateway];
      assert Values(rows) == IsoRows(delivery, images) + [ApkRow(images)] + CloudRows(delivery, images);
    } else {
      assert Values(rows) + [] == Values(rows);
    }
  }

  // ---------- the archived files ----------

  function ArchivedOf(job: Job, sizes: seq<int>): (archived: seq<Archived>)
    requires NamesOf(job.refs).Some? && |sizes| == |job.refs|
    ensures |archived| == |job.refs|
    ensures forall i :: 0 <= i < |job.refs| ==> archived[i].ref.kind == job.refs[i].kind && archived[i].size == sizes[i]
  {
    var refs := Rehomed(job);
    assert |refs| == |job.refs| && forall i :: 0 <= i < |refs| ==> refs[i].kind == job.refs[i].kind;
    seq(|refs|, i requires 0 <= i < |refs| => Archived(refs[i], sizes[i]))
  }

  lemma {:induction false} ShownIsSum(refs: seq<Ref>, archived: seq<Archived>)
    requires |archived| == |refs| && forall i :: 0 <= i < |refs| ==> archived[i].ref.kind == refs[i].kind
    ensures ShownCount(refs) == ShownFiles(archived)
  {
    if refs != [] {
      var n := |refs| - 1;
      ShownIsSum(refs[..n], archived[..n]);
      KindsWithRows(refs[n].kind);
    }
  }

  lemma SumOfRows(w: File -> int, rows: seq<RowValue>, row: RowValue)
    ensures SumRows(w, rows + [row]) == SumRows(w, rows) + Sum(w, row.files)
  {
    assert (rows + [row])[..|rows|] == rows;
  }

  lemma SumOfFiles(w: File -> int, files: seq<File>, file: File)
    ensures Sum(w, files + [file]) == Sum(w, files) + w(file)
  {
    assert (files + [file])[..|files|] == files;
  }

  lemma SumOfOne(w: File -> int, file: File)
    ensures Sum(w, [file]) == w(file)
  {
    SumOfFiles(w, [], file);
    assert [] + [file] == [file];
  }

  function IsoFile(delivery: Delivery, images: Images): File
    requires delivery.isoUrl.Some?
  {
    File("ISO", images.isoSize, delivery.isoUrl.value)
  }

  function TemplateFile(delivery: Delivery, images: Images): File
    requires delivery.templateUrl.Some?
  {
    File("YAML", images.templateSize, delivery.templateUrl.value)
  }

  lemma GatewaySum(w: File -> int, images: Images)
    ensures Sum(w, GatewayFiles(images))
         == w(File("TGZ", images.gatewaySize, images.gatewayUrl))
            + if images.shaSize > 0 then w(File("SHA256", images.shaSize, images.gatewayUrl + ".sha256")) else 0
  {
    var tgz := File("TGZ", images.gatewaySize, images.gatewayUrl);
    SumOfOne(w, tgz);
    if images.shaSize > 0 {
      SumOfFiles(w, [tgz], File("SHA256", images.shaSize, images.gatewayUrl + ".sha256"));
    } else {
      assert GatewayFiles(images) == [tgz];
    }
  }

  /** The system images under any weight, file by file. */
  lemma SystemSum(w: File -> int, delivery: Delivery, images: Images)
    ensures SumRows(w, SystemRows(delivery, images))
         == (if delivery.isoUrl.Some? then w(IsoFile(delivery, images)) else 0)
            + w(File("APK", images.apkSize, images.apkUrl))
            + if delivery.templateUrl.Some?
              then w(TemplateFile(delivery, images)) + Sum(w, GatewayFiles(images)) else 0
  {
    var iso, apk := IsoRows(delivery, images), [ApkRow(images)];
    if delivery.isoUrl.Some? {
      SumOfOne(w, IsoFile(delivery, images));
      SumOfRows(w, [], iso[0]);
      assert [] + [iso[0]] == iso;
    }
    SumOfOne(w, File("APK", images.apkSize, images.apkUrl));
    SumOfRows(w, iso, ApkRow(images));
    if delivery.templateUrl.Some? {
      var cloud := CloudRows(delivery, images);
      SumOfOne(w, TemplateFile(delivery, images));
      SumOfRows(w, iso + apk, cloud[0]);
      SumOfRows(w, iso + apk + [cloud[0]], cloud[1]);
      assert SystemRows(delivery, images) == iso + apk + [cloud[0]] + [cloud[1]];
    } else {
      assert SystemRows(delivery, images) == iso + apk;
    }
  }

  // ---------- counts, bytes and URLs ----------

  /** The downloads of an order's run are the files of the manifest built from what it archived. */
  lemma FileCountIsManifest(job: Job, payload: Payload, sizes: seq<int>, images: Images)
    requires NamesOf(job.refs).Some? && |sizes| == |job.refs| && (job.shaPublished <==> images.shaSize > 0)
    ensures FileCount(job, payload)
         == SumRows(One, SystemRows(DeliveryOf(job, payload), images)) + ShownFiles(ArchivedOf(job, sizes))
  {
    SystemSum(One, DeliveryOf(job, payload), images);
    GatewaySum(One, images);
    ShownIsSum(job.refs, ArchivedOf(job, sizes));
  }

  /** One size is asked per system file that was not baked here, the gateway's checksum among them. */
  lemma HeadCallsAre(job: Job, payload: Payload, images: Images)
    requires images.shaSize > 0
    ensures HeadCalls(payload) + (if payload.partition.NoAws? then 1 else 0)
         == SumRows(One, SystemRows(DeliveryOf(job, payload), images))
  {
    SystemSum(One, DeliveryOf(job, payload), images);
    GatewaySum(One, images);
  }

  /** The bytes of a delivery's system images: ISO and app, or app, template and gateway with its checksum. */
  function SystemBytes(noAws: bool, images: Images): int {
    if noAws then images.isoSize + images.apkSize
    else images.apkSize + images.templateSize + images.gatewaySize + if images.shaSize > 0 then images.shaSize else 0
  }

  /** The bytes of the files whose kind has a row. */
  function RefBytes(refs: seq<Ref>, sizes: seq<int>): int
    requires |sizes| == |refs|
  {
    if refs == [] then 0 else
      var n := |refs| - 1;
      RefBytes(refs[..n], sizes[..n]) + if refs[n].kind == SldHmiSvg then 0 else sizes[n]
  }

  lemma {:induction false} BytesAreRefBytes(refs: seq<Ref>, sizes: seq<int>, archived: seq<Archived>)
    requires |archived| == |refs| == |sizes|
    requires forall i :: 0 <= i < |refs| ==> archived[i].ref.kind == refs[i].kind && archived[i].size == sizes[i]
    ensures ShownBytes(archived) == RefBytes(refs, sizes)
  {
    if refs != [] {
      var n := |refs| - 1;
      BytesAreRefBytes(refs[..n], sizes[..n], archived[..n]);
    }
  }

  lemma BytesDelivered(job: Job, payload: Payload, images: Images)
    ensures SumRows(SizeOf, SystemRows(DeliveryOf(job, payload), images))
         == SystemBytes(payload.partition.NoAws?, images)
  {
    SystemSum(SizeOf, DeliveryOf(job, payload), images);
    GatewaySum(SizeOf, images);
  }

  lemma BytesArchived(job: Job, sizes: seq<int>)
    requires NamesOf(job.refs).Some? && |sizes| == |job.refs|
    ensures ShownBytes(ArchivedOf(job, sizes)) == RefBytes(job.refs, sizes)
  {
    BytesAreRefBytes(job.refs, sizes, ArchivedOf(job, sizes));
  }

  /** The URLs of an order's system images. */
  predicate IsSystemUrl(job: Job, payload: Payload, images: Images, url: string) {
    || url == images.apkUrl
    || (payload.partition.NoAws? && url == job.publicUrl("orders/" + job.orderId + "/" + "arcnode-ems.iso"))
    || (!payload.partition.NoAws? && url == job.publicUrl("orders/" + job.orderId + "/" + "ems-stack.yaml"))
    || (!payload.partition.NoAws? && url == images.gatewayUrl)
    || (!payload.partition.NoAws? && images.shaSize > 0 && url == images.gatewayUrl + ".sha256")
  }

  /** The public URL of an archived file that has a row. */
  ghost predicate IsArchivedUrl(job: Job, url: string) {
    exists i :: 0 <= i < |job.refs| && job.refs[i].kind != SldHmiSvg
      && url == job.publicUrl("orders/" + job.orderId + "/" + ArchivedNames(job)[i])
  }

  lemma SystemUrls(job: Job, payload: Payload, images: Images, url: string)
    ensures SumRows(Is(url), SystemRows(DeliveryOf(job, payload), images)) >= 0
    ensures SumRows(Is(url), SystemRows(DeliveryOf(job, payload), images)) > 0
            <==> IsSystemUrl(job, payload, images, url)
  {
    SystemSum(Is(url), DeliveryOf(job, payload), images);
    GatewaySum(Is(url), images);
  }

  ghost predicate ShownAt(archived: seq<Archived>, url: string, i: nat) {
    i < |archived| && archived[i].ref.kind != SldHmiSvg && archived[i].ref.url == url
  }

  lemma {:induction false} ShownUrls(upper: string -> string, archived: seq<Archived>, url: string)
    ensures SumShown(Is(url), upper, archived) >= 0
    ensures SumShown(Is(url), upper, archived) > 0 <==> exists i: nat :: ShownAt(archived, url, i)
  {
    if archived != [] {
      var n := |archived| - 1;
      ShownUrls(upper, archived[..n], url);
      KindsWithRows(archived[n].ref.kind);
      assert ShownAt(archived, url, n) <==> archived[n].ref.kind != SldHmiSvg && FileOf(upper, archived[n]).url == url;
      if i: nat :| ShownAt(archived[..n], url, i) {
        assert ShownAt(archived, url, i);
      }
      if i: nat :| ShownAt(archived, url, i) && i != n {
        assert ShownAt(archived[..n], url, i);
      }
    }
  }

  lemma ArchivedUrls(upper: string -> string, job: Job, sizes: seq<int>, url: string)
    requires NamesOf(job.refs).Some? && |sizes| == |job.refs|
    ensures SumShown(Is(url), upper, ArchivedOf(job, sizes)) >= 0
    ensures SumShown(Is(url), upper, ArchivedOf(job, sizes)) > 0 <==> IsArchivedUrl(job, url)
  {
    var archived := ArchivedOf(job, sizes);
    ShownUrls(upper, archived, url);
    forall i | 0 <= i < |job.refs|
      ensures archived[i].ref.url == job.publicUrl("orders/" + job.orderId + "/" + ArchivedNames(job)[i])
    {
      RehomedAt(job, i);
    }
    if i: nat :| ShownAt(archived, url, i) {
      assert job.refs[i].kind == archived[i].ref.kind;
    }
    if i :| 0 <= i < |job.refs| && job.refs[i].kind != SldHmiSvg
            && url == job.publicUrl("orders/" + job.orderId + "/" + ArchivedNames(job)[i]) {
      assert ShownAt(archived, url, i);
    }
  }

  /** The URLs are the system images' and the archived files', as often as they stand there. */
  ghost predicate HoldsFiles(
      upper: string -> string, job: Job, payload: Payload, sizes: seq<int>, images: Images, urls: seq<string>)
    requires NamesOf(job.refs).Some? && |sizes| == |job.refs|
  {
    forall url ::
      multiset(urls)[url]
      == SumRows(Is(url), SystemRows(DeliveryOf(job, payload), images))
         + SumShown(Is(url), upper, ArchivedOf(job, sizes))
  }

  lemma UrlsOfOrder(
      upper: string -> string, job: Job, payload: Payload, sizes: seq<int>, images: Images, urls: seq<string>)
    requires NamesOf(job.refs).Some? && |sizes| == |job.refs|
    requires HoldsFiles(upper, job, payload, sizes, images, urls)
    ensures forall url :: url in urls <==> IsSystemUrl(job, payload, images, url) || IsArchivedUrl(job, url)
  {
    forall url ensures url in urls <==> IsSystemUrl(job, payload, images, url) || IsArchivedUrl(job, url) {
      SystemUrls(job, payload, images, url);
      ArchivedUrls(upper, job, sizes, url);
      assert url in urls <==> multiset(urls)[url] > 0;
    }
  }

  /**
   The portal's build, from what an order archived and delivered: the manifest counts, and the zip holds,
   as many files as the run downloads; the total is their bytes; and the zip's URLs are exactly those of the
   delivery's system images and the public ones of the archived files with a row, each as often as it
   stands there.
   */
  method BuildPortal(
      upper: string -> string, pathOf: string -> string, job: Job, payload: Payload, sizes: seq<int>, images: Images)
    returns (m: DeploymentManifest, entries: seq<BundleFile>)
    requires NamesOf(job.refs).Some? && |sizes| == |job.refs| && (job.shaPublished <==> images.shaSize > 0)
    ensures |entries| == m.totalFileCount == FileCount(job, payload)
    ensures m.totalSizeBytes == SystemBytes(payload.partition.NoAws?, images) + RefBytes(job.refs, sizes)
    ensures Values(m.system) == SystemRows(DeliveryOf(job, payload), images) && Coded(m)
    ensures m.cloud <==> !payload.partition.NoAws?
    ensures HoldsFiles(upper, job, payload, sizes, images, Urls(entries))
    ensures forall url ::
      url in Urls(entries) <==> IsSystemUrl(job, payload, images, url) || IsArchivedUrl(job, url)
    ensures Distinct(Paths(entries))
  {
    var delivery := DeliveryOf(job, payload);
    var system := BuildSystemArtifacts(delivery, images);
    m, entries := BuildThenBundle(upper, pathOf, ArchivedOf(job, sizes), system, delivery.templateUrl.Some?);
    FileCountIsManifest(job, payload, sizes, images);
    BytesDelivered(job, payload, images);
    BytesArchived(job, sizes);
    UrlsOfOrder(upper, job, payload, sizes, images, Urls(entries));
  }
}
