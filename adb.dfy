/**
 * The device commands the scripts send to the Android Debug Bridge. The shell
 * text of each command (its interpolation and quoting) is not modelled: a
 * command is a value, and the device is an oracle from commands to output.
 */
module Adb {

  datatype Command =
    | ListPackages(system: bool)          // `adb shell pm list packages -s` when system, `-3` otherwise
    | PmPath(package: string)             // `adb shell pm path <package>`
    | DumpsysVersion(package: string)     // `adb shell dumpsys package <package> | grep versionName`
    | FindFiles(folder: string)           // `adb shell find "<folder>" -type f`
    | Pull(remote: string, local: string) // `adb pull <remote> <local>`

  /** The word both scripts look for in the output of `adb pull` to decide that it succeeded. */
  const PulledMarker: string := "pulled"
}
