/** source/headers.h (and its copy at the top of source/main.cpp):
    `timeFormatting`, the human-readable form of a duration in
    microseconds. */
module TimeFormat {
  import opened Common
  import opened Text
  import Datasets

  /** The bracketed part for a whole number of seconds. */
  function Bracket(seconds: uint64): string
  {
    if seconds < 60 then IntToString(seconds) + "s"
    else if seconds < 3600 then IntToString(seconds / 60) + "min " + IntToString(seconds % 60) + "s"
    else IntToString(seconds / 3600) + "h " + IntToString(seconds % 3600 / 60) + "min " + IntToString(seconds % 60) + "s"
  }

  /** `timeFormatting(microSeconds).str()`: the microseconds, "μs (", the
      whole seconds (unsigned division) broken into fields, ")". */
  function TimeFormatting(microSeconds: uint64): (r: string)
    ensures |r| > |IntToString(microSeconds)| + 4
    ensures r[..|IntToString(microSeconds)| + 4] == IntToString(microSeconds) + "μs (" && r[|r| - 1] == ')'
  {
    IntToString(microSeconds) + "μs (" + Bracket(microSeconds / 1000000) + ")"
  }

  /** The C++ formatter and the Python `format_time` agree on the bracket:
      it is `format_time` of the whole seconds. */
  lemma BracketIsFormatTime(seconds: uint64)
    ensures Bracket(seconds) == Datasets.FormatTime(seconds)
  {
  }

  /** The fields of the bracket: hours, minutes below 60 and seconds below
      60 that add back up to the whole seconds of the input. */
  lemma TimeFormattingFields(microSeconds: uint64) returns (h: int, m: int, sec: int)
    ensures var seconds := microSeconds / 1000000;
      seconds >= 3600 ==>
        Bracket(seconds) == IntToString(h) + "h " + IntToString(m) + "min " + IntToString(sec) + "s" &&
        0 <= m < 60 && 0 <= sec < 60 && h * 3600 + m * 60 + sec == seconds
  {
    var seconds := microSeconds / 1000000;
    BracketIsFormatTime(seconds);
    h, m, sec := Datasets.FormatTimeFields(seconds);
  }
}
