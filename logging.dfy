/** The mod loader's log file, `modloader.log`, as a sequence of entries. */
module Logging {
  /** One line of the log, without its time of day. */
  datatype LogEntry = LogEntry(modName: string, message: string)

  /** The name under which the loader itself logs. */
  const LoaderName: string := "ModLoader"
}
