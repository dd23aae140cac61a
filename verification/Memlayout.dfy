/** The page descriptors of lab2/kern/mm/memlayout.h, but for their list links: the reference count,
    the two flags PG_reserved and PG_property, and the size recorded in the head of a free block. */
module Memlayout {
  datatype Page = Page(ref: int, reserved: bool, head: bool, property: nat)
}
