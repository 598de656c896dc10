/** The failures that end an archive stream. */
module Errors {

  datatype Error =
    /** `tar_header`: the entry is neither a directory nor a regular, non-symlink file. */
    | NotRegularFileOrDirectory
    /** `tar_header`: the encoded file name is longer than 99 bytes. */
    | NameTooLong
    /** `tar_header`: the encoded prefix is longer than 154 bytes. */
    | PrefixTooLong
    /** `tar_header`: the assertion that the assembled header has 512 bytes fails. */
    | HeaderNot512Bytes
    /** `targen`: `Path.relative_to` fails because the entry is not under the base path. */
    | NotRelativeToBase
}
