/**
 * xls/rpt_xls2.py and xls/rpt_xls.py: the Salesforce REST URLs the Excel
 * downloader requests, and the local file name it derives from the
 * response's `Content-Disposition` header.
 */
module Xls {
  import opened Text

  /** `f"{instance_url}/services/data/v{api_version}/{endpoint}"` */
  function GetApiUrl(instanceUrl: string, apiVersion: string, endpoint: string): string {
    instanceUrl + "/services/data/v" + apiVersion + "/" + endpoint
  }

  /** The report itself (downloaded as xlsx). */
  function ExcelEndpoint(reportId: string): string {
    "analytics/reports/" + reportId
  }

  function DescribeEndpoint(reportId: string): string {
    "analytics/reports/" + reportId + "/describe"
  }

  function DetailsEndpoint(reportId: string): string {
    "analytics/reports/" + reportId + "?includeDetails=true"
  }

  const ListReportsEndpoint: string := "analytics/reports"

  const ReportTypesEndpoint: string := "analytics/reportTypes"

  /** xls/rpt_xls.py's fixed-version request URL. */
  function RptXlsUrl(instanceUrl: string, reportId: string): string {
    instanceUrl + "/services/data/v60.0/analytics/reports/" + reportId
  }

  /**
   * The URL is the instance, the REST data root for the version, and the
   * endpoint; with a version free of `/` the version and the endpoint can be
   * read back from it, so different requests get different URLs.
   */
  lemma GetApiUrlParts(instanceUrl: string, v1: string, e1: string, v2: string, e2: string)
    requires '/' !in v1 && '/' !in v2
    ensures IsPrefix(instanceUrl + "/services/data/v", GetApiUrl(instanceUrl, v1, e1))
    ensures GetApiUrl(instanceUrl, v1, e1) == GetApiUrl(instanceUrl, v2, e2) ==> v1 == v2 && e1 == e2
  {
    var p := instanceUrl + "/services/data/v";
    assert GetApiUrl(instanceUrl, v1, e1) == p + (v1 + "/" + e1);
    assert GetApiUrl(instanceUrl, v2, e2) == p + (v2 + "/" + e2);
    if GetApiUrl(instanceUrl, v1, e1) == GetApiUrl(instanceUrl, v2, e2) {
      var t1 := v1 + "/" + e1;
      var t2 := v2 + "/" + e2;
      assert t1 == GetApiUrl(instanceUrl, v1, e1)[|p|..];
      assert t2 == GetApiUrl(instanceUrl, v2, e2)[|p|..];
      assert t1 == t2;
      assert t1 == v1 + ['/'] + e1 && t2 == v2 + ['/'] + e2;
      SplitCharHead(v1, '/', e1);
      SplitCharHead(v2, '/', e2);
      assert SplitOn(t1, ['/'])[0] == v1 && SplitOn(t2, ['/'])[0] == v2;
      assert e1 == t1[|v1| + 1..] && e2 == t2[|v2| + 1..];
    }
  }

  /**
   * The endpoints the downloader calls, through `get_api_url`: the report,
   * its description, its details with rows, the report list and the report
   * types.
   */
  lemma EndpointUrls(instanceUrl: string, apiVersion: string, reportId: string)
    ensures GetApiUrl(instanceUrl, apiVersion, ExcelEndpoint(reportId))
      == instanceUrl + "/services/data/v" + apiVersion + "/analytics/reports/" + reportId
    ensures GetApiUrl(instanceUrl, apiVersion, DescribeEndpoint(reportId))
      == GetApiUrl(instanceUrl, apiVersion, ExcelEndpoint(reportId)) + "/describe"
    ensures GetApiUrl(instanceUrl, apiVersion, DetailsEndpoint(reportId))
      == GetApiUrl(instanceUrl, apiVersion, ExcelEndpoint(reportId)) + "?includeDetails=true"
    ensures GetApiUrl(instanceUrl, apiVersion, ListReportsEndpoint)
      == instanceUrl + "/services/data/v" + apiVersion + "/analytics/reports"
  {
  }

  /** xls/rpt_xls.py asks for what xls/rpt_xls2.py asks for at version 60.0. */
  lemma RptXlsUrlIsVersion60(instanceUrl: string, reportId: string)
    ensures RptXlsUrl(instanceUrl, reportId) == GetApiUrl(instanceUrl, "60.0", ExcelEndpoint(reportId))
  {
  }

  // ---------------------------------------------------------------------
  // the downloaded file's name

  const DefaultFilename: string := "Salesforce_Report.xlsx"

  const FilenameMarker: string := "filename="

  /**
   * `filename = "Salesforce_Report.xlsx"`, replaced by
   * `content_disposition.split("filename=")[-1].strip('"')` when the header
   * mentions `filename=`.
   */
  function DownloadFilename(contentDisposition: string): (filename: string)
    ensures !Contains(contentDisposition, FilenameMarker) ==> filename == DefaultFilename
    ensures Contains(contentDisposition, FilenameMarker) ==>
      filename == [] || (filename[0] != '"' && filename[|filename| - 1] != '"')
  {
    if Contains(contentDisposition, FilenameMarker) then
      var parts := SplitOn(contentDisposition, FilenameMarker);
      Strip(parts[|parts| - 1], '"')
    else DefaultFilename
  }

  /**
   * With `filename=` in the header, the name is what follows its last
   * occurrence, with every leading and trailing `"` removed.
   */
  lemma FilenameAfterLastMarker(contentDisposition: string)
    requires Contains(contentDisposition, FilenameMarker)
    ensures var parts := SplitOn(contentDisposition, FilenameMarker);
      var tail := parts[|parts| - 1];
      && |parts| > 1
      && contentDisposition == Join(parts[..|parts| - 1], FilenameMarker) + FilenameMarker + tail
      && !Contains(tail, FilenameMarker)
      && DownloadFilename(contentDisposition) == Strip(tail, '"')
      && exists i: nat, j: nat :: tail == Repeat('"', i) + DownloadFilename(contentDisposition) + Repeat('"', j)
  {
    var parts := SplitOn(contentDisposition, FilenameMarker);
    var n := |parts| - 1;
    SplitSingle(contentDisposition, FilenameMarker);
    JoinSplit(contentDisposition, FilenameMarker);
    SplitPiecesClean(contentDisposition, FilenameMarker);
    JoinSnoc(parts[..n], parts[n], FilenameMarker);
    assert parts[..n] + [parts[n]] == parts;
  }
}
