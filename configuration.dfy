/** The `configuration` struct of the utilities header: the defaults every run
    starts from, and the thread-count fix-up `parse_arguments` applies last. */
module Config {
  import StorageUnit

  /** Largest `unsigned int` (the type of the thread count). */
  const MaxU32: nat := 0xFFFF_FFFF

  datatype Configuration = Configuration(
    modelPath: string,
    classesPath: string,
    topK: int,
    threads: nat,
    enableTiming: bool,
    useSoftmax: bool,
    maxFilesize: nat,
    disableExtensionCheck: bool,
    imageFiles: seq<string>)

  /** The default-constructed configuration. `hardwareThreads` stands for
      `std::thread::hardware_concurrency()`, which may be 0. The default
      `max_filesize` is computed by the storage-size parser from "100mb". */
  function Default(hardwareThreads: nat): (c: Configuration)
    requires hardwareThreads <= MaxU32
    ensures c.maxFilesize == 100 * 1024 * 1024
    ensures c.topK == 5 && c.threads == hardwareThreads
    ensures !c.enableTiming && !c.useSoftmax && !c.disableExtensionCheck
    ensures c.modelPath == "" && c.classesPath == "" && c.imageFiles == []
  {
    StorageUnit.ParseHundredMegabytes();
    Configuration("", "", 5, hardwareThreads, false, false,
                  StorageUnit.Parse("100mb").value, false, [])
  }

  /** A thread count of 0 becomes 1; every other setting is kept. */
  function FixThreads(c: Configuration): (r: Configuration)
    ensures r.threads >= 1
    ensures c.threads != 0 ==> r == c
    ensures r == c.(threads := r.threads)
  {
    if c.threads == 0 then c.(threads := 1) else c
  }

  /** Whatever the platform reports, at least one worker is started. */
  lemma DefaultRunsOneWorkerAtLeast(hardwareThreads: nat)
    requires hardwareThreads <= MaxU32
    ensures FixThreads(Default(hardwareThreads)).threads == if hardwareThreads == 0 then 1 else hardwareThreads
  {}
}
