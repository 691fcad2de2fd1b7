/**
 `bulk_ingest.py [contracts_dir] [defaulters_file]`: after a health check, every `*.txt`
 file of the contracts directory is ingested under its base name, then the defaulters
 list under a fixed id. The file system and the server's replies are inputs.
 */
module BulkIngest {
  import opened Outcomes
  import opened IngestClient
  import ApiRequests
  import Paths

  const DefaultContractsDir := "./gafta_contracts"
  const DefaultDefaultersFile := "./defaulters_list.txt"
  const DefaultersDocId := "gafta_defaulters_2023"

  /**
   The file system as the script sees it: the `*.txt` listing of each existing directory,
   and each existing file.
   */
  datatype FileSystem = FileSystem(listings: map<string, seq<FileCase>>, files: map<string, FileCase>)

  datatype Arguments = Arguments(contractsDir: string, defaultersFile: string)

  /** Lines 109-117: the first two arguments after the script name, each with its default. */
  function ParseArguments(argv: seq<string>): Arguments {
    Arguments(if |argv| > 1 then argv[1] else DefaultContractsDir,
              if |argv| > 2 then argv[2] else DefaultDefaultersFile)
  }

  /**
   The `ingest_file` calls of lines 122-150: each listed contract file with no id (so its
   base name is used), then the defaulters file, if it exists, under the fixed id.
   */
  function Jobs(a: Arguments, fs: FileSystem): seq<Job> {
    var contracts := if a.contractsDir in fs.listings then fs.listings[a.contractsDir] else [];
    var contractJobs := seq(|contracts|, i requires 0 <= i < |contracts| => Job(contracts[i], None));
    contractJobs + (if a.defaultersFile in fs.files then [Job(fs.files[a.defaultersFile], Some(DefaultersDocId))] else [])
  }

  /** What the script ends with. */
  datatype Report = Report(exitCode: int, successCount: nat, failCount: nat, posted: seq<ApiRequests.IngestRequest>)

  /**
   `main` (lines 91-159), with the health check reading `key`: an unhealthy API ends the
   run with exit code 1 before anything is read; otherwise every job runs once and the
   exit code is 1 exactly when some job failed.
   */
  method RunScript(key: HealthKey, health: HealthReply, argv: seq<string>, fs: FileSystem) returns (report: Report)
    ensures !ApiHealthy(key, health) ==> report == Report(1, 0, 0, [])
    ensures ApiHealthy(key, health) ==> (
      var jobs := Jobs(ParseArguments(argv), fs);
      && report.successCount + report.failCount == |jobs|
      && (report.exitCode == 1 <==> report.failCount > 0)
      && report.exitCode in {0, 1}
      && report.successCount == Successes(RunAll(BaseName, jobs))
      && report.posted == PostedRequests(BaseName, jobs))
  {
    if !ApiHealthy(key, health) {
      return Report(1, 0, 0, []);
    }
    var jobs := Jobs(ParseArguments(argv), fs);
    var outcomes, success, failed, posted := RunJobs(BaseName, jobs);
    report := Report(if failed > 0 then 1 else 0, success, failed, posted);
  }

  /**
   Each contract file is posted under its base name and the defaulters list under the
   fixed id, in that order.
   */
  lemma JobIds(argv: seq<string>, fs: FileSystem)
    ensures var a := ParseArguments(argv); var jobs := Jobs(a, fs);
      && (a.contractsDir in fs.listings ==> forall i :: 0 <= i < |fs.listings[a.contractsDir]| ==>
            jobs[i].docId.GetOr(DefaultDocId(BaseName, jobs[i].source.path))
              == Paths.Basename(fs.listings[a.contractsDir][i].path))
      && (a.defaultersFile in fs.files ==> jobs[|jobs| - 1] == Job(fs.files[a.defaultersFile], Some("gafta_defaulters_2023")))
  {
  }

  /**
   The arguments are positional: with no argument both defaults apply, anything after
   the second argument is ignored, and the run reads exactly the listing of the
   directory named first and the file named second, skipping either when it is absent.
   */
  lemma ArgumentsSelectInputs(argv: seq<string>, extra: seq<string>, fs: FileSystem)
    ensures |argv| <= 1 ==> ParseArguments(argv) == Arguments("./gafta_contracts", "./defaulters_list.txt")
    ensures |argv| >= 3 ==> ParseArguments(argv + extra) == ParseArguments(argv)
    ensures |argv| >= 3 ==> (
      var jobs := Jobs(ParseArguments(argv), fs);
      var listed := if argv[1] in fs.listings then fs.listings[argv[1]] else [];
      && |jobs| == |listed| + (if argv[2] in fs.files then 1 else 0)
      && (forall i :: 0 <= i < |listed| ==> jobs[i].source == listed[i])
      && (argv[2] in fs.files ==> jobs[|jobs| - 1].source == fs.files[argv[2]]))
  {
  }
}
