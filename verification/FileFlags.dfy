// Access requested when opening a file (rust/src/flags.rs).
module FileFlags {
  import opened Bytes

  datatype Flags = Flags(read: bool, write: bool, create: bool, append: bool, truncateExisting: bool) {

    function Validate(): Result<()> {
      if !read && !write then Failure(InvalidArgument)
      else if create && !write then Failure(InvalidArgument)
      else if append && !write then Failure(InvalidArgument)
      else if truncateExisting && !create then Failure(InvalidArgument)
      else Success(())
    }
  }

  // The combinations the program offers.
  const READ_ONLY := Flags(true, false, false, false, false)
  const READ_WRITE := Flags(true, true, false, false, false)
  const OPEN_OR_CREATE := Flags(true, true, true, false, false)
  const CREATE_OR_TRUNCATE := Flags(false, true, true, false, true)
  const APPEND := Flags(false, true, true, true, false)

  // Accepted is what asks for some access, does not change files without
  // writing, and empties only what it may create; every refusal has one error.
  lemma AcceptedFlags(flags: Flags)
    ensures flags.Validate().Success? <==>
      && (flags.read || flags.write)
      && (flags.create || flags.append ==> flags.write)
      && (flags.truncateExisting ==> flags.create)
    ensures flags.Validate().Failure? ==> flags.Validate().error == InvalidArgument
  {
  }

  lemma OfferedFlagsAccepted(flags: Flags)
    requires flags in {READ_ONLY, READ_WRITE, OPEN_OR_CREATE, CREATE_OR_TRUNCATE, APPEND}
    ensures flags.Validate().Success?
  {
  }
}
