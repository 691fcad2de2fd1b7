/**
 `ingest_all_files.py`: after a health check, the converted contracts under
 `demo_files/gafta_contracts/` (sorted) are ingested under their stems, then
 `demo_files/defaulters_list.txt` under a fixed id. The file system and the server's
 replies are inputs.
 */
module IngestAllFiles {
  import opened Outcomes
  import opened IngestClient
  import ApiRequests
  import Paths

  const DefaultersDocId := "gafta_defaulters"

  /**
   What the script finds: the sorted `*.txt` listing of the contracts directory (`None`
   when the directory does not exist) and the defaulters file (`None` when absent).
   */
  datatype Found = Found(contracts: Option<seq<FileCase>>, defaulters: Option<FileCase>)

  /** Line 89: the contract files plus one for an existing defaulters file. */
  function TotalFiles(f: Found): nat {
    (if f.contracts.Some? then |f.contracts.value| else 0) + (if f.defaulters.Some? then 1 else 0)
  }

  /**
   The `ingest_file` calls of lines 107-131: each contract file under its stem, then the
   defaulters file under the fixed id.
   */
  function Jobs(f: Found): (jobs: seq<Job>)
    ensures |jobs| == TotalFiles(f)
  {
    var contracts := f.contracts.GetOr([]);
    var contractJobs := seq(|contracts|, i requires 0 <= i < |contracts| =>
      Job(contracts[i], Some(Paths.Stem(Paths.Basename(contracts[i].path)))));
    contractJobs + (if f.defaulters.Some? then [Job(f.defaulters.value, Some(DefaultersDocId))] else [])
  }

  /** What the script ends with, including each file's `(success, message)`. */
  datatype Report = Report(exitCode: int, successCount: nat, failedCount: nat,
                           outcomes: seq<Outcome>, posted: seq<ApiRequests.IngestRequest>)

  /**
   `main` (lines 67-145), with the health check reading `key`: an unhealthy API or no
   file at all ends the run with exit code 1 before anything is posted; otherwise every
   found file is ingested once, counted once, and the exit code is 0 exactly when none
   failed.
   */
  method RunScript(key: HealthKey, health: HealthReply, found: Found) returns (report: Report)
    ensures !ApiHealthy(key, health) || TotalFiles(found) == 0 ==> report == Report(1, 0, 0, [], [])
    ensures ApiHealthy(key, health) && TotalFiles(found) > 0 ==> (
      && report.successCount + report.failedCount == |report.outcomes|
      && (report.exitCode == 0 <==> report.failedCount == 0)
      && report.exitCode in {0, 1}
      && report.successCount == Successes(report.outcomes)
      && report.outcomes == RunAll(StemName, Jobs(found))
      && report.posted == PostedRequests(StemName, Jobs(found)))
  {
    if !ApiHealthy(key, health) {
      return Report(1, 0, 0, [], []);
    }
    if TotalFiles(found) == 0 {
      return Report(1, 0, 0, [], []);
    }
    var outcomes, success, failed, posted := RunJobs(StemName, Jobs(found));
    report := Report(if failed == 0 then 0 else 1, success, failed, outcomes, posted);
  }

  /**
   Contract files are posted under their stems, in listing order, and the defaulters
   file last under the fixed id.
   */
  lemma JobIds(found: Found)
    ensures var jobs := Jobs(found);
      && (found.contracts.Some? ==> forall i :: 0 <= i < |found.contracts.value| ==>
            jobs[i].docId == Some(Paths.Stem(Paths.Basename(found.contracts.value[i].path))))
      && (found.defaulters.Some? ==> jobs[|jobs| - 1] == Job(found.defaulters.value, Some("gafta_defaulters")))
  {
  }
}
