/**
 * InventoryMapper of the inventory service: conversion between the stored
 * inventory entity and its transfer object. The item and the sale price
 * are opaque values here (type parameters); either may be null.
 */
module Inventory {
  import opened Wrappers

  datatype InventoryEntity<Item, Price> = InventoryEntity(item: Option<Item>, salePrice: Option<Price>)

  datatype InventoryDto<Item, Price> = InventoryDto(item: Option<Item>, salePrice: Option<Price>)

  /** `toDTO`. */
  function ToDto<Item, Price>(entity: InventoryEntity<Item, Price>): (dto: InventoryDto<Item, Price>)
    ensures dto.item == entity.item
    ensures dto.salePrice == entity.salePrice
  {
    InventoryDto(entity.item, entity.salePrice)
  }

  /** `toEntity`. */
  function ToEntity<Item, Price>(dto: InventoryDto<Item, Price>): (entity: InventoryEntity<Item, Price>)
    ensures entity.item == dto.item
    ensures entity.salePrice == dto.salePrice
  {
    InventoryEntity(dto.item, dto.salePrice)
  }

  /** The two conversions are inverse to each other. */
  lemma MapperRoundTrips<Item, Price>(entity: InventoryEntity<Item, Price>, dto: InventoryDto<Item, Price>)
    ensures ToEntity(ToDto(entity)) == entity
    ensures ToDto(ToEntity(dto)) == dto
  {
  }
}
