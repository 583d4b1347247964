/**
 * src/PixelArray.h: a row-major width x height pixel buffer with bounds-checked
 * row access, and the row view it hands out, whose element access returns a
 * writable reference into the shared buffer.
 *
 * The runtime_error the source throws is modelled as a Failure carrying the
 * offending index; the C++ pointer &data[row * width] as the pair (data, offset).
 */
module PixelArrays {
  import opened Ints
  import opened Wrappers

  /** The two runtime_errors: "PixelArray: index out of range" and "PixelArrayRow: index out of range". */
  datatype RangeError = RowOutOfRange(row: int) | IndexOutOfRange(index: int)

  /** PixelArrayRow<T>: length cells of data starting at offset. */
  class PixelArrayRow<T> {
    const data: array<T>
    const offset: nat
    const length: uint16

    ghost predicate Valid()
      reads this
    {
      offset + length <= data.Length
    }

    constructor (data: array<T>, offset: nat, length: uint16)
      requires offset + length <= data.Length
      ensures this.data == data && this.offset == offset && this.length == length
      ensures Valid()
    {
      this.data := data;
      this.offset := offset;
      this.length := length;
    }

    /** operator[] const: the cell at index, or an error outside [0, length). */
    function Get(index: int): (r: Result<T, RangeError>)
      requires Valid()
      reads this, data
      ensures r.Success? <==> 0 <= index < length
      ensures r.Success? ==> r.value == data[offset + index]
      ensures r.Failure? ==> r.error == IndexOutOfRange(index)
    {
      if index < 0 || index >= length then Failure(IndexOutOfRange(index))
      else Success(data[offset + index])
    }

    /**
     * "row[index] = v" through the T& that operator[] returns: on success exactly
     * the cell offset + index of the shared buffer changes; on error nothing does.
     */
    method Write(index: int, v: T) returns (r: Result<(), RangeError>)
      requires Valid()
      modifies data
      ensures r.Success? <==> 0 <= index < length
      ensures r.Success? ==> data[..] == old(data[..])[offset + index := v]
      ensures r.Failure? ==> r.error == IndexOutOfRange(index) && data[..] == old(data[..])
    {
      if index < 0 || index >= length {
        return Failure(IndexOutOfRange(index));
      }
      data[offset + index] := v;
      return Success(());
    }
  }

  /** PixelArray<T>: width x height cells, row r occupying data[r * width .. (r + 1) * width). */
  class PixelArray<T> {
    const width: uint16
    const height: uint16
    const data: array<T>

    ghost predicate Valid()
      reads this
    {
      data.Length == width * height
    }

    constructor (data: array<T>, width: uint16, height: uint16)
      requires data.Length == width * height
      ensures this.data == data && this.width == width && this.height == height
      ensures Valid()
    {
      this.data := data;
      this.width := width;
      this.height := height;
    }

    /** The cell (row, col) as sampleBitmap reads it: bitmap[row][col]. */
    function At(row: int, col: int): (r: Result<T, RangeError>)
      requires Valid()
      reads this, data
      ensures r.Success? <==> 0 <= row < height && 0 <= col < width
      ensures r.Success? ==> CellIndex(width, row, col) < data.Length && r.value == data[CellIndex(width, row, col)]
      ensures row < 0 || row >= height ==> r == Failure(RowOutOfRange(row))
      ensures 0 <= row < height && (col < 0 || col >= width) ==> r == Failure(IndexOutOfRange(col))
    {
      if row < 0 || row >= height then Failure(RowOutOfRange(row))
      else if col < 0 || col >= width then Failure(IndexOutOfRange(col))
      else
        CellIndexInRange(width, height, row, col);
        Success(data[CellIndex(width, row, col)])
    }

    /** operator[](row): a view of the row, or an error outside [0, height). */
    method Row(row: int) returns (r: Result<PixelArrayRow<T>, RangeError>)
      requires Valid()
      ensures r.Success? <==> 0 <= row < height
      ensures r.Failure? ==> r.error == RowOutOfRange(row)
      ensures r.Success? ==>
                fresh(r.value) && r.value.Valid() &&
                r.value.data == data && r.value.offset == row * width && r.value.length == width
      ensures r.Success? ==> forall col :: r.value.Get(col).Success? ==> Success(r.value.Get(col).value) == At(row, col)
    {
      if row < 0 || row >= height {
        return Failure(RowOutOfRange(row));
      }
      RowEndInRange(width, height, row);
      var view := new PixelArrayRow(data, row * width, width);
      return Success(view);
    }
  }

  /** The flat index of cell (row, col). */
  function CellIndex(width: int, row: int, col: int): int {
    row * width + col
  }

  /** A valid (row, col) lies inside the width x height buffer. */
  lemma CellIndexInRange(width: nat, height: nat, row: int, col: int)
    requires 0 <= row < height && 0 <= col < width
    ensures 0 <= CellIndex(width, row, col) < width * height
  {
    assert row * width + col < (row + 1) * width;
    assert (row + 1) * width <= height * width;
  }

  lemma RowEndInRange(width: nat, height: nat, row: int)
    requires 0 <= row < height
    ensures row * width + width <= width * height
  {
    assert (row + 1) * width <= height * width;
  }

  /** Distinct cells have distinct flat indices, so a write to one leaves every other unchanged. */
  lemma CellIndexInjective(width: nat, row1: int, col1: int, row2: int, col2: int)
    requires 0 <= col1 < width && 0 <= col2 < width
    requires CellIndex(width, row1, col1) == CellIndex(width, row2, col2)
    ensures row1 == row2 && col1 == col2
  {
    if row1 < row2 {
      RowsApart(width, row1, col1, row2, col2);
    } else if row2 < row1 {
      RowsApart(width, row2, col2, row1, col1);
    }
  }

  lemma RowsApart(width: nat, row1: int, col1: int, row2: int, col2: int)
    requires 0 <= col1 < width && 0 <= col2 < width && row1 < row2
    ensures CellIndex(width, row1, col1) < CellIndex(width, row2, col2)
  {
    assert (row1 + 1) * width <= row2 * width;
  }
}
