/** What the memory managers agree on. */
module Platform {
  const PAGE_SIZE: nat := 4096
}
