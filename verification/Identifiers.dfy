/** Row ids in the textual form the source prints them: 36 characters, none of them a colon. */
module Identifiers {
  type Uuid = s: string | |s| == 36 && ':' !in s
    witness "00000000-0000-0000-0000-000000000000"
}
